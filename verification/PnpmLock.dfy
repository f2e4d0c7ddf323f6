/** Translating a parsed lockfile into the normalized one. */
module PnpmLock {
  import opened Common
  import opened Metadata
  import opened SnapshotKeys
  import opened PosixPaths

  // ----- The parsed lockfile -----

  datatype RawResolution = Directory(directory: string) | Archive(integrity: string)

  datatype RawPackage = RawPackage(
    cpu: seq<string>, hasBin: bool, libc: seq<string>, os: seq<string>, requiresBuild: bool, resolution: RawResolution)

  /** A dependency name with the version text the lockfile records for it. */
  type RawReferences = map<string, string>

  datatype RawSnapshot = RawSnapshot(
    dependencies: RawReferences, optional: bool, optionalDependencies: RawReferences, requiresBuild: bool)

  datatype RawImporter = RawImporter(
    dependencies: RawReferences, devDependencies: RawReferences, optionalDependencies: RawReferences)

  datatype RawLock = RawLock(
    importers: map<string, RawImporter>, packages: map<string, RawPackage>, snapshots: map<string, RawSnapshot>)

  /** What comes from outside the lockfile: verified patches, the integrity format and a digest. */
  datatype Policy = Policy(patches: map<string, Patch>, validIntegrity: string -> bool, digest: string -> string)

  datatype LockError =
    | LinkOutsideImporter
    | UnsafeLink
    | LinkEscapes
    | AmbiguousPeers
    | Unresolved
    | MalformedKey
    | RequiresBuild
    | DirectoryWithoutFile
    | BadIntegrity
    | UnsupportedVersion
    | NoPackage(packageKey: string)
    | BadSuffixes(error: KeyError)
    | ManyPatches
    | UnexpectedPatch
    | WrongPatch

  // ----- Workspace links -----

  function ResolveLink(importer: string, linked: string): Result<string, LockError> {
    if linked == "" || IsAbsolute(linked) then Result.Failure(UnsafeLink)
    else
      var resolved := Normalize(PathJoin(if importer == "." then "" else importer, linked));
      if StepsUp(resolved) then Result.Failure(LinkEscapes) else Success(resolved)
  }

  /** The link as one path from the repository root. */
  function LinkText(importer: string, linked: string): string {
    if importer == "." || importer == "" then linked else importer + "/" + linked
  }

  /** A link is accepted exactly when it is a relative path that never steps above the repository root. */
  lemma LinkResolves(importer: string, linked: string)
    ensures ResolveLink(importer, linked).Success? <==>
      var text := LinkText(importer, linked);
      linked != "" && !IsAbsolute(linked) && (IsAbsolute(text) || !Leaves(Components(text)))
  {
    hide Normalize, Components, Leaves, Render;
    if linked != "" && !IsAbsolute(linked) {
      var text := LinkText(importer, linked);
      NormalizeIdempotent(text);
      assert ResolveLink(importer, linked).Success? <==> !StepsUp(Normalize(text));
      NormalizedStepsUp(text);
    }
  }

  lemma NormalizedStepsUp(text: string)
    requires text != ""
    ensures StepsUp(Normalize(text)) <==> !IsAbsolute(text) && Leaves(Components(text))
  {
    hide Components, NormalParts, Render, Leaves, StepsUp;
    var parts := NormalParts(Components(text), !IsAbsolute(text));
    SplitIsSlashFree(text);
    NormalPartsAreNormal(Components(text), !IsAbsolute(text));
    RenderedSplit(parts, IsAbsolute(text), text[|text| - 1] == '/');
    StepsUpIff(Normalize(text));
    LeavesIff(Components(text));
  }

  /** An accepted link is in normal form, has no step up, and leads where following the link from the importer leads. */
  lemma LinkLeadsThere(importer: string, linked: string)
    requires ResolveLink(importer, linked).Success?
    ensures var path := ResolveLink(importer, linked).value;
      && Normalize(path) == path && ".." !in Components(path)
      && Walk([], Components(path)) == Walk(Walk([], Components(importer)), Components(linked))
  {
    hide Normalize, Components, Leaves, Walk, Render;
    var text := LinkText(importer, linked);
    NormalizeIdempotent(text);
    LinkResolves(importer, linked);
    NormalizedNames(text);
    NormalizeLeadsThere(text);
    LinkTextLeadsThere(importer, linked);
  }

  lemma NormalizedNames(text: string)
    requires text != "" && (IsAbsolute(text) || !Leaves(Components(text)))
    ensures ".." !in Components(Normalize(text))
  {
    hide Components, NormalParts, Render, Leaves;
    var parts := NormalParts(Components(text), !IsAbsolute(text));
    SplitIsSlashFree(text);
    NormalPartsAreNormal(Components(text), !IsAbsolute(text));
    RenderedSplit(parts, IsAbsolute(text), text[|text| - 1] == '/');
    LeavesIff(Components(text));
  }

  lemma NormalizeLeadsThere(text: string)
    ensures Walk([], Components(Normalize(text))) == Walk([], Components(text))
  {
    hide Components, NormalParts, Render, Walk;
    if text == "" {
      NothingWalked();
    } else {
      var absolute := IsAbsolute(text);
      var parts := NormalParts(Components(text), !absolute);
      SplitIsSlashFree(text);
      NormalPartsAreNormal(Components(text), !absolute);
      RenderedParts(parts, absolute, text[|text| - 1] == '/');
      NormalLeadsThere([], Components(text), !absolute);
      NormalLeadsThere([], Components(Normalize(text)), !absolute);
    }
  }

  lemma NothingWalked()
    ensures Walk([], Components("")) == [] && Walk([], Components(".")) == []
  {
    DotSplits();
    assert [""][..0] == [] && ["."][..0] == [];
  }

  lemma LinkTextLeadsThere(importer: string, linked: string)
    ensures Walk([], Components(LinkText(importer, linked))) == Walk(Walk([], Components(importer)), Components(linked))
  {
    hide Components, Walk;
    if importer == "." || importer == "" {
      NothingWalked();
    } else {
      SplitConcat(importer, linked);
      WalkConcat([], Components(importer), Components(linked));
    }
  }

  // ----- Package references -----

  /** Snapshot keys by their base. */
  ghost predicate IndexedByBase(keys: set<string>, byBase: map<string, seq<string>>) {
    && (forall k | k in keys :: BaseSnapshotKey(k) in byBase && k in byBase[BaseSnapshotKey(k)])
    && (forall b, k | b in byBase && k in byBase[b] :: k in keys && BaseSnapshotKey(k) == b)
  }

  method SnapshotsByBase(keys: set<string>) returns (byBase: map<string, seq<string>>)
    ensures IndexedByBase(keys, byBase)
  {
    hide BaseSnapshotKey;
    byBase := map[];
    var left := keys;
    while left != {}
      invariant left <= keys && IndexedByBase(keys - left, byBase)
      decreases |left|
    {
      var key :| key in left;
      var base := BaseSnapshotKey(key);
      var candidates := if base in byBase then byBase[base] else [];
      FileOneMore(keys - left, byBase, key);
      byBase := byBase[base := candidates + [key]];
      assert keys - (left - {key}) == keys - left + {key};
      left := left - {key};
    }
    assert keys - left == keys;
  }

  lemma FileOneMore(keys: set<string>, byBase: map<string, seq<string>>, key: string)
    requires IndexedByBase(keys, byBase)
    ensures var base := BaseSnapshotKey(key);
      IndexedByBase(keys + {key}, byBase[base := (if base in byBase then byBase[base] else []) + [key]])
  {
    hide BaseSnapshotKey;
  }

  function AliasVersion(version: string): string {
    if "npm:" <= version then version[4..] else version
  }

  /** The keys a reference may mean, the qualified name first; the two texts always differ. */
  function Candidates(name: string, version: string): seq<string> {
    [name + "@" + AliasVersion(version), AliasVersion(version)]
  }

  function BaseMatches(byBase: map<string, seq<string>>, candidates: seq<string>): set<string> {
    set c, k | c in candidates && BaseSnapshotKey(c) in byBase && k in byBase[BaseSnapshotKey(c)] :: k
  }

  lemma OnlyOne<T>(s: set<T>, x: T, y: T)
    requires |s| == 1 && x in s && y in s
    ensures x == y
  {
    var rest := s - {x};
    assert |rest| == 0;
    assert y !in rest;
  }

  lemma OneElement<T>(s: set<T>, x: T)
    requires x in s && forall y | y in s :: y == x
    ensures |s| == 1
  {
    assert s == {x};
  }

  function Only(s: set<string>): string
    requires |s| == 1
  {
    assert s != {};
    assert forall x, y | x in s && y in s :: x == y by {
      forall x, y | x in s && y in s ensures x == y { OnlyOne(s, x, y); }
    }
    var x :| x in s; x
  }

  function ResolveReference(keys: set<string>, byBase: map<string, seq<string>>, importer: Option<string>, name: string,
                            version: string)
    : Result<Reference, LockError>
  {
    if "link:" <= version then
      match importer
      case None => Result.Failure(LinkOutsideImporter)
      case Some(from) =>
        var path :- ResolveLink(from, version[5..]);
        Success(WorkspaceRef(path))
    else
      var candidates := Candidates(name, version);
      if candidates[0] in keys then Success(PackageRef(candidates[0]))
      else if candidates[1] in keys then Success(PackageRef(candidates[1]))
      else
        var unique := BaseMatches(byBase, candidates);
        if |unique| == 1 then Success(PackageRef(Only(unique)))
        else if |unique| > 1 then Result.Failure(AmbiguousPeers)
        else Result.Failure(Unresolved)
  }

  /** A snapshot key that differs from a candidate in its suffixes only. */
  ghost predicate SharesBase(keys: set<string>, candidates: seq<string>, k: string) {
    k in keys && exists i :: 0 <= i < |candidates| && BaseSnapshotKey(candidates[i]) == BaseSnapshotKey(k)
  }

  lemma BaseMatchesAre(keys: set<string>, byBase: map<string, seq<string>>, candidates: seq<string>, k: string)
    requires IndexedByBase(keys, byBase)
    ensures k in BaseMatches(byBase, candidates) <==> SharesBase(keys, candidates, k)
  {
    hide BaseSnapshotKey;
    if SharesBase(keys, candidates, k) {
      var i :| 0 <= i < |candidates| && BaseSnapshotKey(candidates[i]) == BaseSnapshotKey(k);
      assert candidates[i] in candidates && k in byBase[BaseSnapshotKey(candidates[i])];
    }
  }

  /**
   * A package reference names an existing snapshot: a candidate itself, or the one snapshot that shares a base with
   * one.
   */
  lemma ReferenceIs(keys: set<string>, byBase: map<string, seq<string>>, importer: Option<string>, name: string,
                    version: string, k: string)
    requires IndexedByBase(keys, byBase) && !("link:" <= version)
    ensures ResolveReference(keys, byBase, importer, name, version) == Success(PackageRef(k)) <==>
      var candidates := Candidates(name, version);
      if candidates[0] in keys then k == candidates[0]
      else if candidates[1] in keys then k == candidates[1]
      else SharesBase(keys, candidates, k) && forall other | SharesBase(keys, candidates, other) :: other == k
    ensures ResolveReference(keys, byBase, importer, name, version) == Success(PackageRef(k)) ==> k in keys
  {
    hide BaseSnapshotKey, Candidates, IndexedByBase, SharesBase, BaseMatches;
    var candidates := Candidates(name, version);
    var unique := BaseMatches(byBase, candidates);
    forall x
      ensures x in unique <==> SharesBase(keys, candidates, x)
      ensures SharesBase(keys, candidates, x) ==> x in keys
    {
      BaseMatchesAre(keys, byBase, candidates, x);
      SharersExist(keys, candidates, x);
    }
    if k in unique && forall other | other in unique :: other == k {
      OneElement(unique, k);
    }
    if |unique| == 1 {
      forall x | x in unique ensures x == Only(unique) { OnlyOne(unique, x, Only(unique)); }
    }
  }

  /** A version fails as unresolved where no snapshot has a candidate's base, and as ambiguous where several do. */
  lemma UnresolvedIff(keys: set<string>, byBase: map<string, seq<string>>, importer: Option<string>, name: string,
                      version: string)
    requires IndexedByBase(keys, byBase) && !("link:" <= version)
    ensures var candidates := Candidates(name, version);
      var r := ResolveReference(keys, byBase, importer, name, version);
      && (r == Result.Failure(Unresolved) <==> forall k :: !SharesBase(keys, candidates, k))
      && (r == Result.Failure(AmbiguousPeers) <==>
            && candidates[0] !in keys && candidates[1] !in keys
            && exists x, y :: x != y && SharesBase(keys, candidates, x) && SharesBase(keys, candidates, y))
  {
    hide BaseSnapshotKey, AliasVersion, IndexedByBase, SharesBase, BaseMatches;
    var candidates := Candidates(name, version);
    var unique := BaseMatches(byBase, candidates);
    forall x ensures x in unique <==> SharesBase(keys, candidates, x) {
      BaseMatchesAre(keys, byBase, candidates, x);
    }
    CandidatesShare(keys, candidates);
    if candidates[0] in keys {
      assert SharesBase(keys, candidates, candidates[0]);
    } else if candidates[1] in keys {
      assert SharesBase(keys, candidates, candidates[1]);
    } else if |unique| > 1 {
      TwoElements(unique);
    } else if |unique| == 1 {
      forall x, y | x in unique && y in unique ensures x == y { OnlyOne(unique, x, y); }
      assert SharesBase(keys, candidates, Only(unique));
    } else {
      NoElement(unique);
    }
  }

  lemma CandidatesShare(keys: set<string>, candidates: seq<string>)
    ensures forall i | 0 <= i < |candidates| && candidates[i] in keys :: SharesBase(keys, candidates, candidates[i])
  {
  }

  lemma NoElement(s: set<string>)
    ensures |s| == 0 <==> forall x :: x !in s
  {
    if |s| == 0 { assert s == {}; }
    if forall x :: x !in s { assert s == {}; }
  }

  lemma TwoElements(s: set<string>)
    requires |s| > 1
    ensures exists x, y :: x != y && x in s && y in s
  {
    var x :| x in s;
    var rest := s - {x};
    assert |rest| == |s| - 1;
    assert rest != {};
    var y :| y in rest;
    assert x != y && y in s;
  }

  lemma SharersExist(keys: set<string>, candidates: seq<string>, k: string)
    ensures SharesBase(keys, candidates, k) ==> k in keys
  {
  }

  /** A version names the package of its own name first; an alias names the package it gives. */
  lemma NamedReference(keys: set<string>, byBase: map<string, seq<string>>, importer: Option<string>, name: string,
                       version: string, target: string)
    requires !("link:" <= version) && !("npm:" <= version)
    ensures name + "@" + version in keys ==>
      ResolveReference(keys, byBase, importer, name, version) == Success(PackageRef(name + "@" + version))
    ensures target in keys && name + "@" + target !in keys ==>
      ResolveReference(keys, byBase, importer, name, "npm:" + target) == Success(PackageRef(target))
  {
    hide BaseMatches, ResolveLink;
    assert ("npm:" + target)[..4] == "npm:" && ("npm:" + target)[4..] == target;
    assert ("npm:" + target)[0] == 'n';
  }

  /** What a resolved reference may be. */
  ghost predicate SoundReference(keys: set<string>, reference: Reference) {
    match reference
    case PackageRef(k) => k in keys
    case WorkspaceRef(path) => Normalize(path) == path && ".." !in Components(path)
  }

  lemma ResolvedIsSound(keys: set<string>, byBase: map<string, seq<string>>, importer: Option<string>, name: string,
                        version: string)
    requires IndexedByBase(keys, byBase)
    ensures var r := ResolveReference(keys, byBase, importer, name, version);
      r.Success? ==> SoundReference(keys, r.value) && (importer.None? ==> r.value.PackageRef?)
  {
    hide IndexedByBase, Normalize, Components, ResolveLink, BaseMatches;
    var r := ResolveReference(keys, byBase, importer, name, version);
    if r.Success? {
      if "link:" <= version {
        LinkLeadsThere(importer.value, version[5..]);
      } else {
        ReferenceIs(keys, byBase, importer, name, version, r.value.snapshot);
      }
    }
  }

  // ----- Packages -----

  predicate VersionChar(c: char) {
    'A' <= c <= 'Z' || 'a' <= c <= 'z' || '0' <= c <= '9' || c in {'.', '_', '+', '~', '-'}
  }

  function ArchiveUrl(name: string, version: string): Result<string, LockError> {
    if version == "" || exists c | c in version :: !VersionChar(c) then Result.Failure(UnsupportedVersion)
    else
      var tarballName := if "@" <= name then name[IndexOf(name, '/') + 1..] else name;
      Success("https://registry.npmjs.org/" + name + "/-/" + tarballName + "-" + version + ".tgz")
  }

  function TranslatePackage(policy: Policy, key: string, raw: RawPackage): Result<Package, LockError> {
    if raw.requiresBuild then Result.Failure(RequiresBuild)
    else
      match PackageKeyParts(key)
      case None => Result.Failure(MalformedKey)
      case Some(parts) =>
        match raw.resolution
        case Directory(directory) =>
          if !("file:" <= parts.version) then Result.Failure(DirectoryWithoutFile)
          else Success(Package(raw.cpu, raw.hasBin, None, raw.libc, parts.name, raw.os,
                       None, Workspace, None, parts.version, Some(directory)))
        case Archive(integrity) =>
          if !policy.validIntegrity(integrity) then Result.Failure(BadIntegrity)
          else
            var url :- ArchiveUrl(parts.name, parts.version);
            var identity := parts.name + "@" + parts.version;
            var patch := if identity in policy.patches then Some(policy.patches[identity]) else None;
            Success(Package(raw.cpu, raw.hasBin, Some(integrity), raw.libc, parts.name, raw.os, patch,
                    Registry, Some(url), parts.version, None))
  }

  /** An accepted package key is its own identity, so a patch is found under the key itself. */
  lemma PackagePatchIsByKey(policy: Policy, key: string, raw: RawPackage)
    ensures TranslatePackage(policy, key, raw).Success? ==>
      var p := TranslatePackage(policy, key, raw).value;
      && p.name + "@" + p.version == key
      && p.patch == (if raw.resolution.Archive? && key in policy.patches then Some(policy.patches[key]) else None)
      && (p.resolution.Workspace? ==> p.workspacePath.Some?)
      && (p.resolution.Registry? ==> p.integrity.Some? && p.url.Some?)
  {
    hide ArchiveUrl, PackageKeyParts;
    PackageKeyRebuilds(key);
  }

  /** When a package translates, and what it carries over from the parsed lockfile. */
  lemma TranslatedPackageIs(policy: Policy, key: string, raw: RawPackage)
    ensures TranslatePackage(policy, key, raw).Success? <==>
      && !raw.requiresBuild && PackageKeyParts(key).Some?
      && match raw.resolution
         case Directory(_) => "file:" <= PackageKeyParts(key).value.version
         case Archive(integrity) =>
           policy.validIntegrity(integrity)
           && forall c | c in PackageKeyParts(key).value.version ::
                'A' <= c <= 'Z' || 'a' <= c <= 'z' || '0' <= c <= '9' || c in "._+~-"
    ensures TranslatePackage(policy, key, raw).Success? ==>
      var p := TranslatePackage(policy, key, raw).value;
      && p.cpu == raw.cpu && p.os == raw.os && p.libc == raw.libc && p.hasBin == raw.hasBin
      && match raw.resolution
         case Directory(directory) =>
           p.resolution == Workspace && p.workspacePath == Some(directory) && p.integrity == None && p.url == None
         case Archive(integrity) =>
           p.resolution == Registry && p.workspacePath == None && p.integrity == Some(integrity) && p.url.Some?
  {
    hide PackageKeyParts;
    PackageKeyRebuilds(key);
  }

  /** The archive of a package lies under its full name, in a file named by its name without scope and its version. */
  lemma ArchiveAddress(policy: Policy, scope: string, base: string, scoped: bool, version: string, raw: RawPackage)
    requires '/' !in scope && base != "" && '@' !in base && version != ""
    requires !raw.requiresBuild && raw.resolution.Archive? && policy.validIntegrity(raw.resolution.integrity)
    requires forall c | c in version :: VersionChar(c)
    ensures var name := if scoped then "@" + scope + "/" + base else base;
      var r := TranslatePackage(policy, name + "@" + version, raw);
      && r.Success? && r.value.name == name && r.value.version == version
      && r.value.url == Some("https://registry.npmjs.org/" + name + "/-/" + base + "-" + version + ".tgz")
  {
    hide PackageKeyParts, VersionChar;
    var name := if scoped then "@" + scope + "/" + base else base;
    if scoped { assert SnapshotKeys.PackageName(name); }
    PackageKeyRoundTrip(name, version);
    if scoped {
      FirstIndex("@" + scope, '/', base);
      assert name == ("@" + scope) + ['/'] + base;
    }
  }

  method TranslatePackages(policy: Policy, raw: map<string, RawPackage>)
    returns (r: Result<map<string, Package>, LockError>)
    ensures r.Success? <==> forall k | k in raw :: TranslatePackage(policy, k, raw[k]).Success?
    ensures r.Success? ==>
      r.value.Keys == raw.Keys && forall k | k in raw :: TranslatePackage(policy, k, raw[k]) == Success(r.value[k])
  {
    hide TranslatePackage;
    var keys := SortedNames(raw.Keys);
    var packages: map<string, Package> := map[];
    for i := 0 to |keys|
      invariant forall k :: k in packages <==> k in keys[..i]
      invariant forall k | k in packages :: k in raw && TranslatePackage(policy, k, raw[k]) == Success(packages[k])
    {
      TakeOneMore(keys, i);
      var p :- TranslatePackage(policy, keys[i], raw[keys[i]]);
      packages := packages[keys[i] := p];
    }
    assert keys[..|keys|] == keys;
    return Success(packages);
  }

  // ----- Snapshots and importers -----

  /** The keys of the lockfile's snapshots with their index, and the importer a reference stands in, if any. */
  datatype Scope = Scope(keys: set<string>, byBase: map<string, seq<string>>, importer: Option<string>)

  function Resolve(scope: Scope, name: string, version: string): Result<Reference, LockError> {
    ResolveReference(scope.keys, scope.byBase, scope.importer, name, version)
  }

  ghost predicate GroupTranslates(scope: Scope, group: RawReferences) {
    forall n | n in group :: Resolve(scope, n, group[n]).Success?
  }

  ghost predicate GroupIs(scope: Scope, group: RawReferences, references: References) {
    references.Keys == group.Keys && forall n | n in group :: Resolve(scope, n, group[n]) == Success(references[n])
  }

  method TranslateGroup(scope: Scope, group: RawReferences) returns (r: Result<References, LockError>)
    ensures r.Success? <==> GroupTranslates(scope, group)
    ensures r.Success? ==> GroupIs(scope, group, r.value)
  {
    hide Resolve;
    var names := SortedNames(group.Keys);
    var references: References := map[];
    for i := 0 to |names|
      invariant forall n :: n in references <==> n in names[..i]
      invariant forall n | n in references :: n in group && Resolve(scope, n, group[n]) == Success(references[n])
    {
      TakeOneMore(names, i);
      var reference :- Resolve(scope, names[i], group[names[i]]);
      references := references[names[i] := reference];
    }
    assert names[..|names|] == names;
    return Success(references);
  }

  const PATCH_PREFIX := "patch_hash="

  function PatchSuffixes(suffixes: seq<string>): seq<string> {
    if suffixes == [] then []
    else (if PATCH_PREFIX <= suffixes[0] then [suffixes[0]] else []) + PatchSuffixes(suffixes[1..])
  }

  function PeerSuffixes(suffixes: seq<string>): seq<string> {
    if suffixes == [] then []
    else (if PATCH_PREFIX <= suffixes[0] then [] else [suffixes[0]]) + PeerSuffixes(suffixes[1..])
  }

  /** No suffix is lost: each is a patch or a peer identity. */
  lemma {:induction false} SuffixesAreSorted(suffixes: seq<string>)
    ensures multiset(PatchSuffixes(suffixes)) + multiset(PeerSuffixes(suffixes)) == multiset(suffixes)
    ensures forall s :: s in PatchSuffixes(suffixes) <==> s in suffixes && PATCH_PREFIX <= s
    ensures forall s :: s in PeerSuffixes(suffixes) <==> s in suffixes && !(PATCH_PREFIX <= s)
  {
    if suffixes != [] {
      SuffixesAreSorted(suffixes[1..]);
      assert suffixes == [suffixes[0]] + suffixes[1..];
    }
  }

  function PatchCheck(patch: Option<Patch>, patchSuffixes: seq<string>): Option<LockError> {
    if |patchSuffixes| > 1 then Some(ManyPatches)
    else if patch.None? && |patchSuffixes| > 0 then Some(UnexpectedPatch)
    else if patch.Some? && patchSuffixes != [PATCH_PREFIX + patch.value.hash] then Some(WrongPatch)
    else None
  }

  /** A snapshot names exactly the patch its package carries. */
  lemma PatchChecked(patch: Option<Patch>, patchSuffixes: seq<string>)
    ensures PatchCheck(patch, patchSuffixes).None? <==>
      patchSuffixes == if patch.Some? then ["patch_hash=" + patch.value.hash] else []
  {
  }

  /** The suffixes of a key, of which there is at most one reading. */
  ghost predicate HasSuffixes(key: string, suffixes: seq<string>) {
    Suffixes(suffixes) && key == BaseSnapshotKey(key) + Wrap(suffixes)
  }

  ghost predicate KeyFits(packages: map<string, Package>, key: string) {
    && BaseSnapshotKey(key) in packages
    && exists suffixes ::
         && HasSuffixes(key, suffixes)
         && PatchCheck(packages[BaseSnapshotKey(key)].patch, PatchSuffixes(suffixes)).None?
  }

  ghost predicate SnapshotTranslates(packages: map<string, Package>, scope: Scope, key: string, raw: RawSnapshot) {
    && !raw.requiresBuild && KeyFits(packages, key)
    && GroupTranslates(scope, raw.dependencies) && GroupTranslates(scope, raw.optionalDependencies)
  }

  ghost predicate SnapshotIs(policy: Policy, scope: Scope, key: string, raw: RawSnapshot, s: Snapshot) {
    && s.package == BaseSnapshotKey(key)
    && s.optional == raw.optional
    && (exists suffixes :: HasSuffixes(key, suffixes) && s.peerIdentities == PeerSuffixes(suffixes))
    && GroupIs(scope, raw.dependencies, s.dependencies)
    && GroupIs(scope, raw.optionalDependencies, s.optionalDependencies)
    && IsStoreName(policy.digest, key, s.virtualStoreName)
  }

  /** Reads a key's suffixes and checks them against its package's patch; gives the peer identities. */
  method ReadKey(packages: map<string, Package>, key: string) returns (r: Result<seq<string>, LockError>)
    ensures r.Success? <==> KeyFits(packages, key)
    ensures r.Success? ==> exists suffixes :: HasSuffixes(key, suffixes) && r.value == PeerSuffixes(suffixes)
  {
    hide Suffixes, BaseSnapshotKey, Wrap, PatchCheck, PatchSuffixes, PeerSuffixes, WellFormed;
    if BaseSnapshotKey(key) !in packages {
      return Result.Failure(NoPackage(BaseSnapshotKey(key)));
    }
    var suffixes := SnapshotSuffixes(key);
    WellFormedIff(key);
    if suffixes.Failure? {
      return Result.Failure(BadSuffixes(suffixes.error));
    }
    forall other | HasSuffixes(key, other)
      ensures other == suffixes.value
    {
      SuffixesUnique(key, other, suffixes.value);
    }
    var wrong := PatchCheck(packages[BaseSnapshotKey(key)].patch, PatchSuffixes(suffixes.value));
    if wrong.Some? {
      return Result.Failure(wrong.value);
    }
    return Success(PeerSuffixes(suffixes.value));
  }

  lemma WellFormedIff(key: string)
    ensures WellFormed(key) <==> exists suffixes :: HasSuffixes(key, suffixes)
  {
    hide Suffixes, BaseSnapshotKey, Wrap;
    if suffixes :| HasSuffixes(key, suffixes) {
      assert Suffixes(suffixes) && key == BaseSnapshotKey(key) + Wrap(suffixes);
    }
    if WellFormed(key) {
      var suffixes :| Suffixes(suffixes) && key == BaseSnapshotKey(key) + Wrap(suffixes);
      assert HasSuffixes(key, suffixes);
    }
  }

  method TranslateSnapshot(policy: Policy, packages: map<string, Package>, scope: Scope, key: string, raw: RawSnapshot)
    returns (r: Result<Snapshot, LockError>)
    requires ShortDigest(policy.digest)
    ensures r.Success? <==> SnapshotTranslates(packages, scope, key, raw)
    ensures r.Success? ==> SnapshotIs(policy, scope, key, raw, r.value)
  {
    hide KeyFits, GroupTranslates, GroupIs, HasSuffixes, PeerSuffixes, BaseSnapshotKey, IsStoreName, ShortDigest;
    if raw.requiresBuild {
      return Result.Failure(RequiresBuild);
    }
    var peers :- ReadKey(packages, key);
    var dependencies :- TranslateGroup(scope, raw.dependencies);
    var optionalDependencies :- TranslateGroup(scope, raw.optionalDependencies);
    var name := VirtualStoreName(policy.digest, key);
    return Success(Snapshot(dependencies, raw.optional, optionalDependencies, BaseSnapshotKey(key), peers, name));
  }

  method TranslateSnapshots(policy: Policy, packages: map<string, Package>, scope: Scope, raw: map<string, RawSnapshot>)
    returns (r: Result<map<string, Snapshot>, LockError>)
    requires ShortDigest(policy.digest)
    ensures r.Success? <==> forall k | k in raw :: SnapshotTranslates(packages, scope, k, raw[k])
    ensures r.Success? ==>
      r.value.Keys == raw.Keys && forall k | k in raw :: SnapshotIs(policy, scope, k, raw[k], r.value[k])
  {
    hide SnapshotTranslates, SnapshotIs, ShortDigest;
    var keys := SortedNames(raw.Keys);
    var snapshots: map<string, Snapshot> := map[];
    for i := 0 to |keys|
      invariant forall k :: k in snapshots <==> k in keys[..i]
      invariant forall k | k in snapshots ::
        k in raw && SnapshotTranslates(packages, scope, k, raw[k]) && SnapshotIs(policy, scope, k, raw[k], snapshots[k])
    {
      TakeOneMore(keys, i);
      var s := TranslateSnapshot(policy, packages, scope, keys[i], raw[keys[i]]);
      if s.Failure? {
        return Result.Failure(s.error);
      }
      snapshots := snapshots[keys[i] := s.value];
    }
    assert keys[..|keys|] == keys;
    return Success(snapshots);
  }

  ghost predicate ImporterTranslates(scope: Scope, raw: RawImporter) {
    && GroupTranslates(scope, raw.dependencies) && GroupTranslates(scope, raw.devDependencies)
    && GroupTranslates(scope, raw.optionalDependencies)
  }

  ghost predicate ImporterIs(scope: Scope, raw: RawImporter, importer: Importer) {
    && GroupIs(scope, raw.dependencies, importer.dependencies)
    && GroupIs(scope, raw.devDependencies, importer.devDependencies)
    && GroupIs(scope, raw.optionalDependencies, importer.optionalDependencies)
  }

  method TranslateImporter(scope: Scope, raw: RawImporter) returns (r: Result<Importer, LockError>)
    ensures r.Success? <==> ImporterTranslates(scope, raw)
    ensures r.Success? ==> ImporterIs(scope, raw, r.value)
  {
    hide GroupTranslates, GroupIs;
    var dependencies :- TranslateGroup(scope, raw.dependencies);
    var devDependencies :- TranslateGroup(scope, raw.devDependencies);
    var optionalDependencies :- TranslateGroup(scope, raw.optionalDependencies);
    return Success(Importer(dependencies, devDependencies, optionalDependencies));
  }

  method TranslateImporters(scope: Scope, raw: map<string, RawImporter>)
    returns (r: Result<map<string, Importer>, LockError>)
    ensures r.Success? <==> forall k | k in raw :: ImporterTranslates(scope.(importer := Some(k)), raw[k])
    ensures r.Success? ==>
      r.value.Keys == raw.Keys && forall k | k in raw :: ImporterIs(scope.(importer := Some(k)), raw[k], r.value[k])
  {
    hide ImporterTranslates, ImporterIs;
    var keys := SortedNames(raw.Keys);
    var importers: map<string, Importer> := map[];
    for i := 0 to |keys|
      invariant forall k :: k in importers <==> k in keys[..i]
      invariant forall k | k in importers ::
        k in raw && ImporterTranslates(scope.(importer := Some(k)), raw[k])
        && ImporterIs(scope.(importer := Some(k)), raw[k], importers[k])
    {
      TakeOneMore(keys, i);
      var importer := TranslateImporter(scope.(importer := Some(keys[i])), raw[keys[i]]);
      if importer.Failure? {
        return Result.Failure(importer.error);
      }
      importers := importers[keys[i] := importer.value];
    }
    assert keys[..|keys|] == keys;
    return Success(importers);
  }

  // ----- The lockfile -----

  /** What references are resolved against: the snapshots of the parsed lockfile, also by their base keys. */
  ghost predicate ScopeOf(raw: RawLock, scope: Scope) {
    scope.keys == raw.snapshots.Keys && scope.importer == None && IndexedByBase(scope.keys, scope.byBase)
  }

  /** How a normalized lockfile relates to the parsed one. */
  ghost predicate IsTranslation(policy: Policy, scope: Scope, raw: RawLock, md: Lock) {
    && ScopeOf(raw, scope)
    && md.packages.Keys == raw.packages.Keys && md.snapshots.Keys == raw.snapshots.Keys
    && md.importers.Keys == raw.importers.Keys
    && (forall k | k in raw.packages :: TranslatePackage(policy, k, raw.packages[k]) == Success(md.packages[k]))
    && (forall k | k in raw.snapshots :: SnapshotTranslates(md.packages, scope, k, raw.snapshots[k]))
    && (forall k | k in raw.snapshots :: SnapshotIs(policy, scope, k, raw.snapshots[k], md.snapshots[k]))
    && (forall k | k in raw.importers :: ImporterIs(scope.(importer := Some(k)), raw.importers[k], md.importers[k]))
  }

  /** Everything that can make the translation fail. */
  ghost predicate Translates(policy: Policy, scope: Scope, raw: RawLock) {
    && (forall k | k in raw.packages :: TranslatePackage(policy, k, raw.packages[k]).Success?)
    && (forall k | k in raw.snapshots :: SnapshotTranslates(PackagesOf(policy, raw), scope, k, raw.snapshots[k]))
    && (forall k | k in raw.importers :: ImporterTranslates(scope.(importer := Some(k)), raw.importers[k]))
  }

  /** A translation succeeds exactly when nothing makes it fail, and then relates the two lockfiles. */
  ghost predicate IsOutcome(policy: Policy, scope: Scope, raw: RawLock, r: Result<Lock, LockError>) {
    && ScopeOf(raw, scope)
    && (r.Success? <==> Translates(policy, scope, raw))
    && (r.Success? ==> IsTranslation(policy, scope, raw, r.value))
  }

  ghost function PackagesOf(policy: Policy, raw: RawLock): map<string, Package> {
    map k | k in raw.packages && TranslatePackage(policy, k, raw.packages[k]).Success? ::
      TranslatePackage(policy, k, raw.packages[k]).value
  }

  method TranslatePnpmLock(policy: Policy, raw: RawLock) returns (r: Result<Lock, LockError>)
    requires ShortDigest(policy.digest)
    ensures exists scope :: IsOutcome(policy, scope, raw, r)
    ensures r.Success? ==> ClosedLock(r.value)
  {
    hide TranslatePackage, SnapshotTranslates, SnapshotIs, ImporterTranslates, ImporterIs, IndexedByBase, ShortDigest,
         ClosedLock;
    var byBase := SnapshotsByBase(raw.snapshots.Keys);
    var scope := Scope(raw.snapshots.Keys, byBase, None);
    assert ScopeOf(raw, scope);
    var packages := TranslatePackages(policy, raw.packages);
    if packages.Failure? {
      r := Result.Failure(packages.error);
      assert IsOutcome(policy, scope, raw, r);
      return;
    }
    assert packages.value == PackagesOf(policy, raw);
    var snapshots := TranslateSnapshots(policy, packages.value, scope, raw.snapshots);
    if snapshots.Failure? {
      r := Result.Failure(snapshots.error);
      assert IsOutcome(policy, scope, raw, r);
      return;
    }
    var importers := TranslateImporters(scope, raw.importers);
    if importers.Failure? {
      r := Result.Failure(importers.error);
      assert IsOutcome(policy, scope, raw, r);
      return;
    }
    r := Success(Lock(importers.value, packages.value, snapshots.value));
    assert IsOutcome(policy, scope, raw, r);
    TranslationIsClosed(policy, scope, raw, r.value);
  }

  /** Every reference leads to something the lockfile has. */
  ghost predicate ClosedLock(md: Lock) {
    && (forall s | s in md.snapshots :: md.snapshots[s].package in md.packages)
    && (forall k | k in md.packages && md.packages[k].resolution.Workspace? :: md.packages[k].workspacePath.Some?)
    && (forall s, n | s in md.snapshots && n in md.snapshots[s].dependencies ::
          md.snapshots[s].dependencies[n].PackageRef? && md.snapshots[s].dependencies[n].snapshot in md.snapshots)
    && (forall s, n | s in md.snapshots && n in md.snapshots[s].optionalDependencies ::
          md.snapshots[s].optionalDependencies[n].PackageRef?
          && md.snapshots[s].optionalDependencies[n].snapshot in md.snapshots)
    && (forall i | i in md.importers ::
          && SoundGroup(md.snapshots.Keys, md.importers[i].dependencies)
          && SoundGroup(md.snapshots.Keys, md.importers[i].devDependencies)
          && SoundGroup(md.snapshots.Keys, md.importers[i].optionalDependencies))
  }

  ghost predicate SoundGroup(keys: set<string>, group: References) {
    forall n | n in group :: SoundReference(keys, group[n])
  }

  lemma GroupIsSound(scope: Scope, raw: RawReferences, group: References)
    requires IndexedByBase(scope.keys, scope.byBase) && GroupIs(scope, raw, group)
    ensures SoundGroup(scope.keys, group)
    ensures scope.importer.None? ==> forall n | n in group :: group[n].PackageRef?
  {
    hide IndexedByBase, ResolveReference, SoundReference;
    forall n | n in group
      ensures SoundReference(scope.keys, group[n]) && (scope.importer.None? ==> group[n].PackageRef?)
    {
      ResolvedIsSound(scope.keys, scope.byBase, scope.importer, n, raw[n]);
    }
  }

  lemma TranslationIsClosed(policy: Policy, scope: Scope, raw: RawLock, md: Lock)
    requires IsTranslation(policy, scope, raw, md)
    ensures ClosedLock(md)
  {
    hide IndexedByBase, GroupIs, GroupTranslates, TranslatePackage, IsStoreName, HasSuffixes, BaseSnapshotKey,
         PatchCheck;
    forall k | k in md.packages
      ensures md.packages[k].resolution.Workspace? ==> md.packages[k].workspacePath.Some?
    {
      PackagePatchIsByKey(policy, k, raw.packages[k]);
    }
    forall s | s in md.snapshots
      ensures md.snapshots[s].package in md.packages
      ensures forall n | n in md.snapshots[s].dependencies ::
        md.snapshots[s].dependencies[n].PackageRef? && md.snapshots[s].dependencies[n].snapshot in md.snapshots
      ensures forall n | n in md.snapshots[s].optionalDependencies ::
        md.snapshots[s].optionalDependencies[n].PackageRef?
        && md.snapshots[s].optionalDependencies[n].snapshot in md.snapshots
    {
      GroupIsSound(scope, raw.snapshots[s].dependencies, md.snapshots[s].dependencies);
      GroupIsSound(scope, raw.snapshots[s].optionalDependencies, md.snapshots[s].optionalDependencies);
    }
    forall i | i in md.importers
      ensures SoundGroup(md.snapshots.Keys, md.importers[i].dependencies)
      ensures SoundGroup(md.snapshots.Keys, md.importers[i].devDependencies)
      ensures SoundGroup(md.snapshots.Keys, md.importers[i].optionalDependencies)
    {
      var of := scope.(importer := Some(i));
      GroupIsSound(of, raw.importers[i].dependencies, md.importers[i].dependencies);
      GroupIsSound(of, raw.importers[i].devDependencies, md.importers[i].devDependencies);
      GroupIsSound(of, raw.importers[i].optionalDependencies, md.importers[i].optionalDependencies);
    }
  }
}
