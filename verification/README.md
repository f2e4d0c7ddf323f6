# Normalized pnpm store and its neighbours, modelled in Dafny

The repository compiles a pnpm lockfile into one normalized store: every peer-qualified snapshot becomes one entry, every
real dependency cycle one component, every importer one view, and each of them one build target. This project models that
compiler from the parsed lockfile to the declared targets and the assembled trees, and proves what its stages promise each
other. Beside it stand five smaller pieces of the same repository: the archive workers that derive the digest sidecar, the
publish protocol for pull-request snapshots, the measurement classifier, the shell quoting printer and the JSON normalizer
behind every fingerprint.

Loops, worklists and objects that change are methods and a class with contracts; pure expressions are functions; protocols
are state machines over their steps. `dafny verify dfyconfig.toml` checks the project.

| file | subject |
|---|---|
| `Common.dfy`, `Metadata.dfy`, `Digraphs.dfy` | shared values, the normalized lockfile, finite graphs and reachability |
| `TarjanInvariant.dfy`, `Tarjan.dfy`, `StoreSccs.dfy` | strongly connected components with an explicit stack, and the cycles of the store |
| `StoreEdges.dfy`, `StoreKeyNames.dfy` | platforms, type companions, the edges of snapshots and importers, names in store keys |
| `PlatformGroups.dfy`, `RootBins.dfy`, `BinOwners.dfy`, `StoreProjection.dfy`, `PnpmStore.dfy` | the projection: grouping, executables, entries, closures, views |
| `StoreBuck.dfy`, `StoreTargets.dfy`, `CompiledStore.dfy`, `PortableStore.dfy` | the declared targets, what they depend on, what they say of the lockfile, and the portable platform |
| `SnapshotKeys.dfy`, `PosixPaths.dfy`, `PnpmLock.dfy`, `LockToStore.dfy` | keys, paths, the lockfile translator, and what the projection may rely on |
| `ArchivePool.dfy`, `Sidecar.dfy`, `TarScan.dfy` | the archive workers, the sidecar, the manifest scan |
| `SnapshotPublish.dfy` | the publish, verify and receipt protocol |
| `StorePaths.dfy`, `StoreAssembly.dfy`, `StoreTrees.dfy` | relative links, the staged assembly of trees, and the three kinds of tree |
| `OrderStatistics.dfy`, `Classifier.dfy` | medians and percentiles, the classifier and its report |
| `ShellQuoting.dfy`, `CanonicalJson.dfy` | the quoting printer and the normalizer |

## What comes from outside

Digests, the workspace key, locale comparison, text decoding, `realpath`, downloads, archive decompression and
`JSON.stringify` are parameters. Thrown errors are `Result` values that keep the kind of error, not its text.

Three comments of the source do not hold of its code; the code is followed and the exact condition proved.

- `buck2/dependencies/pnpm-store.ts:86-87` says that keeping the incumbent on ties makes the root executable independent of
  visit order. It does so exactly when no two distinct maximal records tie (`RootBins.OrderIrrelevantIff`); two prereleases
  of one release do tie (`RootBins.OrderMatters`).
- `buck2/dependencies/pnpm-store.ts:47-49` says that parsing a store key restores the package name of a peer-qualified key.
  Store keys have their parentheses rewritten and are cut at 120 bytes when they are made, so it does exactly when no at
  sign follows the name in what is kept of the key (`StoreKeyNames.NameRecoveredIff`); a key with one peer does not give its
  name back (`StoreKeyNames.PeersHideTheName`), and a very long name never comes back (`StoreKeyNames.LongNameIsLost`).
- `buck2/dependencies/assemble-store.ts:106` speaks of preserving contained links. The containment test also accepts a link
  that leaves its tree and comes back by the tree's name, which the copy does not preserve (`StorePaths.ReturningLinkIsLost`).
  A contained link is preserved by every copy exactly when following it never leaves the tree
  (`StorePaths.EveryCopyPreservesIff`), and by one copy exactly when both trees end in the components it climbs out by
  (`StorePaths.CopyPreservesIff`).

On ustar archives the manifest scan does not do what one would expect of it either. The format lets a record without stored
data, such as a directory, carry a size; the scan does not look at the typeflag and skips that many bytes of the next
records (`TarScan.DirectoryHidesManifest`). A record is read as it should be, whatever follows, exactly when its typeflag
stores data or its size is zero (`TarScan.RecordReadsIff`), and when all records up to the manifest are, the manifest is
found (`TarScan.ManifestFound`).

Two results are exact where one might expect no exception. Reusing a previous sidecar makes the generator reject its own
result exactly when a package without executables keeps some (`Sidecar.GeneratePnpmSha256Sidecar`, `Sidecar.StaleBinsAreKept`).
A paired measurement pooled from several sources can fail while its direction says improved
(`Classifier.TwoSourcesCanLookImproved`); `Classifier.PairedFailKind` says when.

## Model

| member | source | states |
|---|---|---|
| Tarjan.PopComponent | buck2/dependencies/pnpm-store.ts:628-634 | popping down to a node gives exactly the stack above and including it, reversed |
| Tarjan.Look | buck2/dependencies/pnpm-store.ts:605-621 | looking at one successor of the open visit keeps every invariant of the algorithm and uses up the measure |
| Tarjan.Finish | buck2/dependencies/pnpm-store.ts:622-636 | closing a visit emits exactly one whole class of mutually reachable nodes when its low link is its own index, and hands the low link down otherwise |
| Tarjan.Traverse | buck2/dependencies/pnpm-store.ts:594-638 | the explicit-stack walk from one root ends (undiscovered nodes, then successors still to look at), and afterwards everything reachable from the root is in an emitted class |
| Tarjan.StrongComponents | buck2/dependencies/pnpm-store.ts:587-638 | on any closed graph the components are exactly the classes of mutual reachability: each is whole, none overlap, all nodes are covered |
| TarjanInvariant.EmittedIsClass | buck2/dependencies/pnpm-store.ts:627-635 | what lies above a node whose low link is its own index is one maximal class of mutually reachable nodes |
| StoreSccs.KeptIffOnCycle | buck2/dependencies/pnpm-store.ts:640-645 | a component is kept exactly when its nodes lie on a cycle of at least one edge |
| StoreSccs.SortKeys | buck2/dependencies/pnpm-store.ts:646-650 | the store keys of a component come out as a sorted permutation |
| StoreSccs.NameComponents | buck2/dependencies/pnpm-store.ts:640-651 | the kept components are renamed to store keys and ordered, each once and none left out |
| StoreSccs.ComputeStoreSccs | buck2/dependencies/pnpm-store.ts:545-652 | fails exactly on an unknown package or a companion with two versions; otherwise lists exactly the cycles of the platform-union graph, disjoint and maximal, by sorted store key |
| StoreSccs.KeptAreCycles | buck2/dependencies/pnpm-store.ts:640-651 | a node of the union graph is in a listed component if and only if it lies on a cycle |
| StoreEdges.PortableIsAllowedEverywhere | buck2/dependencies/pnpm-store.ts:134-163 | a package the portable platform admits is admitted by every platform |
| StoreEdges.AllowedIff | buck2/dependencies/pnpm-store.ts:134-163 | a package is admitted exactly where its lists select the machine by its own values, x64 or arm64, linux or darwin, and glibc on Linux only |
| StoreEdges.NamedMachines | buck2/dependencies/pnpm-store.ts:120-163 | of lists that bar nothing, an empty one admits every machine and any other just those it names; libc is never consulted on macOS |
| StoreEdges.BarredMachines | buck2/dependencies/pnpm-store.ts:120-163 | lists that only bar machines admit exactly those they do not bar |
| StoreEdges.BarringOverrides | buck2/dependencies/pnpm-store.ts:120-132 | barring a machine overrides naming it |
| StoreEdges.ChosenHasMostPeers | buck2/dependencies/pnpm-store.ts:324-330 | the chosen companion has the most peer identities of its candidates, and among equals the earliest key |
| StoreEdges.CompanionsUnique | buck2/dependencies/pnpm-store.ts:297-333 | the choice of type companions does not depend on any visit order |
| StoreEdges.MostQualified | buck2/dependencies/pnpm-store.ts:324-330 | the head of the sort: more peer identities first, then the earlier key |
| StoreEdges.CompanionCandidates | buck2/dependencies/pnpm-store.ts:302-311 | every registry snapshot of a `@types/` package is a candidate under its name; an unknown package is the one failure |
| StoreEdges.TypesCompanionSnapshots | buck2/dependencies/pnpm-store.ts:297-333 | succeeds exactly when all packages are known and no companion has two versions, and maps each companion name to its most qualified snapshot |
| StoreEdges.PeerTypeCompanions | buck2/dependencies/pnpm-store.ts:349-373 | the companions of a snapshot are those of its peers that the lockfile has and the snapshot does not declare |
| StoreEdges.AddGroup | buck2/dependencies/pnpm-store.ts:430-445 | adding a group overwrites by name, in name order, and fails exactly when some reference of the group fails |
| StoreEdges.SnapshotEdges | buck2/dependencies/pnpm-store.ts:416-467 | the edges of a snapshot on a platform are its groups merged in order, companions last; fails exactly when a reference does |
| StoreEdges.ImporterEdges | buck2/dependencies/pnpm-store.ts:469-497 | the edges of an importer on a platform are its three groups merged in order; fails exactly when a reference does |
| StoreEdges.GroupTargets | buck2/dependencies/pnpm-store.ts:563-569 | collects exactly the store snapshots a group refers to |
| StoreEdges.Successors | buck2/dependencies/pnpm-store.ts:560-584 | the successors of a snapshot are the store snapshots any of its three groups names |
| StoreEdges.UnionGraph | buck2/dependencies/pnpm-store.ts:550-585 | the union graph has a node per store snapshot and an edge per reference, whatever the platform |
| StoreEdges.PlatformEdgeInUnion | buck2/dependencies/pnpm-store.ts:416-467 | every entry edge a snapshot has on some platform is an edge of the union graph, to a snapshot that platform admits |
| StoreEdges.ImporterEdgeTarget | buck2/dependencies/pnpm-store.ts:469-497 | every entry edge of an importer leads to a store snapshot the platform admits |
| StoreKeyNames.NameRecoveredIff | buck2/dependencies/pnpm-store.ts:51-59 | a store key, cut or not, gives back its package's name if and only if the name survives: no plus in it, and no at sign after it in what is kept of the expanded key; a name that is itself cut comes back only if it ends in the digest of its own key |
| StoreKeyNames.PeersHideTheName | buck2/dependencies/pnpm-store.ts:44-59 | a key that is not cut and has a peer, hence a further at sign, does not give back its name |
| StoreKeyNames.LongNameIsLost | buck2/dependencies/pnpm-store.ts:51-59 | a name of more than 120 bytes is never given back |
| StoreKeyNames.CutPeersIs | buck2/dependencies/pnpm-store.ts:52-52 | what is cut off a key is all from the first parenthesis that no line break follows |
| StoreKeyNames.PeerIdentityReads | buck2/dependencies/pnpm-store.ts:51-59 | a peer identity reads as its name and version, whatever peers of its own it carries |
| StoreKeyNames.CompanionNames | buck2/dependencies/pnpm-store.ts:265-275 | the companion of an unscoped package carries its name, of a scoped one scope and name joined by two underscores |
| StoreKeyNames.PeerBringsCompanion | buck2/dependencies/pnpm-store.ts:349-373 | a scoped or unscoped peer brings its companion as an edge to the chosen snapshot, unless the snapshot declares that companion or the lockfile has none |
| PlatformGroups.GroupByPlatform | buck2/dependencies/pnpm-store.ts:515-535 | one group per distinct identity, none empty, holding exactly the platforms with that identity |
| PlatformGroups.ShareIffSame | buck2/dependencies/pnpm-store.ts:515-535 | two platforms share a group if and only if their projected identities are equal |
| PlatformGroups.InExactlyOneGroup | buck2/dependencies/pnpm-store.ts:515-535 | every projected platform is in one group and in no second |
| PlatformGroups.FindsItsIdentity | buck2/dependencies/pnpm-store.ts:726-728 | looking up a grouped platform finds a value with that platform's identity |
| RootBins.VersionsPreordered | buck2/dependencies/pnpm-store.ts:61-79 | the version comparison is antisymmetric in sign and transitive |
| RootBins.PickIsBeats | buck2/dependencies/pnpm-store.ts:88-104 | the challenger is picked exactly when it is strictly greater: owning the bin name, then name, then version |
| RootBins.BeatsTransitive | buck2/dependencies/pnpm-store.ts:88-104 | the root-bin preference is transitive |
| RootBins.WinnerIsMaximal | buck2/dependencies/pnpm-store.ts:759-775 | the fold keeps a record no visited record beats |
| RootBins.WinnerIsFirst | buck2/dependencies/pnpm-store.ts:759-775 | among the maximal records the fold keeps the one visited first |
| RootBins.OrderIrrelevantIff | buck2/dependencies/pnpm-store.ts:81-87 | every visit order gives the same winner if and only if no two distinct maximal records tie |
| RootBins.OrderMatters | buck2/dependencies/pnpm-store.ts:81-87 | under any collation two prereleases of one release tie, so swapping their visits changes the winner, against the source comment |
| RootBins.VisitEntry | buck2/dependencies/pnpm-store.ts:763-774 | visiting the executables of one entry folds each into its slot |
| RootBins.RootBins | buck2/dependencies/pnpm-store.ts:759-775 | each name of the bin directory is decided by the fold over all visits of that name, and no other name appears |
| RootBins.VisitedIff | buck2/dependencies/pnpm-store.ts:760-765 | a record is visited exactly when some direct entry offers that executable |
| BinOwners.LeadingIntIs | buck2/dependencies/pnpm-store.ts:66-67 | a version segment reads as the integer it starts with, after white space and a sign, and as zero without one |
| BinOwners.ReleaseReads | buck2/dependencies/pnpm-store.ts:62-68 | a version written as numbers with dots reads as those numbers, with or without a prerelease tag |
| BinOwners.SegmentsAbove | buck2/dependencies/pnpm-store.ts:69-74 | one release is above another exactly when the first differing segment is greater, missing segments being zero |
| BinOwners.GreaterVersion | buck2/dependencies/pnpm-store.ts:61-79 | of versions as written the greater is the one whose first differing segment is greater, and with equal segments a release is above its prereleases |
| BinOwners.UnscopedIff | buck2/dependencies/pnpm-store.ts:100-100 | a package owns an executable exactly when its name, less any scope, is that of the executable |
| BinOwners.PickedIff | buck2/dependencies/pnpm-store.ts:88-104 | of two packages as written, the challenger gets the executable exactly when it alone owns the name, or else has the greater name, or else the greater version |
| StoreProjection.SameIdentitySameKeys | buck2/dependencies/pnpm-store.ts:499-505 | edge selections with one identity lead to the same entries and workspaces under the same names |
| StoreProjection.AdmittedIff | buck2/dependencies/pnpm-store.ts:690-692 | the platforms of an entry are exactly those that admit its package, each once |
| StoreProjection.MakeEntry | buck2/dependencies/pnpm-store.ts:688-710 | fails exactly when an admitted platform cannot resolve the snapshot; otherwise every admitted platform finds a variant with its own identity and no other platform finds one |
| StoreProjection.MakeEntries | buck2/dependencies/pnpm-store.ts:680-715 | one entry per store snapshot, in order; fails exactly when two store keys collide or a snapshot does not resolve |
| StoreProjection.PresentEntry | buck2/dependencies/pnpm-store.ts:717-729 | looking up an entry on a platform that has it never fails |
| StoreProjection.TargetsPresent | buck2/dependencies/pnpm-store.ts:717-729 | an entry present on a platform leads only to entries present there, along union-graph edges |
| StoreProjection.Enqueue | buck2/dependencies/pnpm-store.ts:744-754 | adds exactly the entry keys and workspace trees of a selection, queueing each new key once |
| StoreProjection.Closure | buck2/dependencies/pnpm-store.ts:742-758 | the worklist ends with exactly the store keys reachable from the direct edges, all present, whatever the pop order; neither lookup failure can happen; the workspace trees are those reached |
| StoreProjection.ProjectView | buck2/dependencies/pnpm-store.ts:740-782 | what an importer sees on a platform: direct edges, sorted closure and decided executables; only an unresolvable reference of its own fails |
| StoreProjection.MakeView | buck2/dependencies/pnpm-store.ts:731-790 | every platform finds a variant with the identity of what the importer sees there; the workspace trees are exactly those some platform reaches |
| PnpmStore.NumberComponent | buck2/dependencies/pnpm-store.ts:673-678 | numbers the members of one component, rejecting exactly a key already numbered |
| PnpmStore.NumberMembers | buck2/dependencies/pnpm-store.ts:672-678 | succeeds exactly when no store key is listed twice |
| PnpmStore.DistinctKeysListedOnce | buck2/dependencies/pnpm-store.ts:673-678 | with distinct store keys the two-components failure cannot happen |
| PnpmStore.MakeViews | buck2/dependencies/pnpm-store.ts:731-790 | one view per importer, in order; fails exactly when some importer does not resolve on some platform |
| PnpmStore.MakePnpmStoreProjection | buck2/dependencies/pnpm-store.ts:662-810 | succeeds exactly on projectable lockfiles, and then entries, components, numbers and views are those of the union graph and of every platform |
| StoreBuck.EntryRendersIff | buck2/dependencies/pnpm-store-buck.ts:372-408 | the two workspace checks of an entry pass exactly when it leads to no workspace on any platform; a member fails exactly when its package is grafted |
| StoreBuck.ViewRendersIff | buck2/dependencies/pnpm-store-buck.ts:163-192 | a view is declared exactly when every platform has a variant, its closure is known and its workspaces are the same on all platforms |
| StoreBuck.InvariantIff | buck2/dependencies/pnpm-store-buck.ts:122-134 | a record passes as invariant exactly when all platforms have the same one |
| StoreBuck.AddPorts | buck2/dependencies/pnpm-store-buck.ts:330-333 | adds exactly the links of a member that stay inside, or that leave |
| StoreBuck.InternalPorts | buck2/dependencies/pnpm-store-buck.ts:326-336 | the internal links of a component on a platform |
| StoreBuck.ExternalPorts | buck2/dependencies/pnpm-store-buck.ts:337-351 | the external links of a component; fails exactly when a member leads to a workspace or an unknown entry |
| StoreBuck.RenderScc | buck2/dependencies/pnpm-store-buck.ts:324-370 | a component is declared exactly when all members can be, with its internal and external links on every platform |
| StoreBuck.IndexEntries | buck2/dependencies/pnpm-store-buck.ts:307-310 | entries by store key, the last of equal keys winning |
| StoreBuck.RenderPnpmStoreBuck | buck2/dependencies/pnpm-store-buck.ts:306-414 | declares every component, entry and view in order, failing exactly when one cannot be declared |
| StoreTargets.NumberedIffOnCycle | buck2/dependencies/pnpm-store.ts:705-705 | an entry carries a component number exactly when its snapshot lies on a cycle, and is listed in that component |
| StoreTargets.VariantIs | buck2/dependencies/pnpm-store-buck.ts:170-189 | what a view declares on a platform is what its importer has there |
| StoreTargets.RendersIff | buck2/dependencies/pnpm-store-buck.ts:306-414 | for a projection, declaring fails only on a workspace below a store entry, a grafted cycle member or an importer whose workspaces vary: no lookup of a variant, entry or component can fail |
| StoreTargets.NeedsIs | buck2/dependencies/pnpm-store-buck.ts:324-408 | what a declared target depends on, in terms of the entries |
| StoreTargets.NeedsFollowsPath | buck2/dependencies/pnpm-store-buck.ts:324-408 | following a declared dependency follows a path of the union graph |
| StoreTargets.StepsInsideAClass | buck2/dependencies/pnpm-store-buck.ts:324-408 | within one class of the union graph the only declared dependency is that of a member on its component |
| StoreTargets.TargetsAreAcyclic | buck2/dependencies/pnpm-store-buck.ts:324-408 | on no platform does a chain of declared dependencies lead from a target back to itself |
| StoreTargets.NothingDangles | buck2/dependencies/pnpm-store-buck.ts:324-414 | every target a declared target names is declared |
| StoreTargets.NothingIsLost | buck2/dependencies/pnpm-store-buck.ts:324-408 | each edge of an entry is declared once: by the entry, inside its component, or as a dependency of its component |
| CompiledStore.SnapshotLeadsIff | buck2/dependencies/pnpm-store.ts:375-467 | a snapshot leads to an edge under a name exactly when its optional dependency of that name does, or else its mandatory one, or else a type companion of a peer that it does not declare |
| CompiledStore.ImporterLeadsIff | buck2/dependencies/pnpm-store.ts:469-497 | an importer leads to an edge under a name exactly when its optional, or else its development, or else its ordinary dependency of that name does |
| CompiledStore.InstallsIff | buck2/dependencies/pnpm-store.ts:742-758 | the keys the worklist reaches are exactly those a chain of dependencies joins to the importer on that platform, in terms of the lockfile alone |
| CompiledStore.DecidedOwners | buck2/dependencies/pnpm-store.ts:759-775 | every executable a direct dependency offers has one owner, an offer that no other offer beats |
| CompiledStore.ViewIsDeclared | buck2/dependencies/pnpm-store-buck.ts:163-207 | a view declares on each platform exactly the importer's dependencies, everything installed for it, its executables' owners and its workspaces |
| CompiledStore.MemberIsDeclared | buck2/dependencies/pnpm-store-buck.ts:324-370 | a component holds a member's links to packages on its own cycle as internal and all others as external, under their names |
| CompiledStore.EntryIsDeclared | buck2/dependencies/pnpm-store-buck.ts:372-408 | every store snapshot's entry declares exactly the dependencies the lockfile gives it where its package runs, or belongs to the component that does when it lies on a cycle |
| CompiledStore.ViewNeedsIff | buck2/dependencies/pnpm-store-buck.ts:180-187 | a view depends on an entry on a platform if and only if the entry's package is installed for its importer there |
| CompiledStore.CompileStore | buck2/dependencies/pnpm-store-buck.ts:306-414 | from lockfile to declarations: succeeds exactly on projectable and renderable lockfiles; the result declares exactly what the lockfile says of every snapshot and importer on every platform, is acyclic and has no dangling dependency |
| PortableStore.NamesDecided | buck2/dependencies/pnpm-store.ts:430-496 | the edge of a name is that of the last group whose listing leads somewhere on the platform |
| PortableStore.PortableWithinIff | buck2/dependencies/pnpm-store.ts:416-497 | the portable edges are edges of another platform if and only if no later group replaces one of them there |
| PortableStore.DisjointNamesOverrideNothing | buck2/dependencies/pnpm-store.ts:416-497 | when no name is listed by two groups nothing is replaced on any platform |
| PortableStore.PortableClosureWithin | buck2/dependencies/pnpm-store.ts:742-758 | where nothing is replaced, an importer's portable closure lies within its closure on that platform |
| PortableStore.OverriddenNameIsNotPortable | buck2/dependencies/pnpm-store.ts:469-497 | a name listed again as an optional dependency the portable platform skips loses its portable edge elsewhere |
| PortableStore.OverriddenNamesExist | buck2/dependencies/pnpm-store.ts:134-163 | there is a lockfile that projects, whose importer lists a name twice, and whose portable edges are not among those of another platform |
| PortableStore.SteadyIff | buck2/dependencies/pnpm-store-buck.ts:122-141 | the workspaces of merged groups are the same on all platforms if and only if no package listing displaces a workspace on some platforms only |
| PortableStore.SameWorkspacesIff | buck2/dependencies/pnpm-store-buck.ts:189-192 | the workspace check of a view passes exactly for steady importers |
| PortableStore.DisjointIsSteady | buck2/dependencies/pnpm-store-buck.ts:189-192 | with names disjoint across groups the check never fails |
| SnapshotKeys.PackageKeyRoundTrip | buck2/dependencies/pnpm-lock.ts:193-198 | a package key takes apart into exactly the name and version it was put together from, scoped or not |
| SnapshotKeys.PackageKeyRebuilds | buck2/dependencies/pnpm-lock.ts:193-198 | an accepted key is its name, an at sign and its version, neither empty |
| SnapshotKeys.ReadingIsUnique | buck2/dependencies/pnpm-lock.ts:207-233 | a text has at most one reading as wrapped balanced suffixes |
| SnapshotKeys.SnapshotSuffixes | buck2/dependencies/pnpm-lock.ts:207-233 | accepts exactly the well-formed keys; base and re-wrapped suffixes rebuild the key, every suffix nonempty and balanced; the unmatched-closing failure never happens |
| SnapshotKeys.SnapshotKeyRoundTrip | buck2/dependencies/pnpm-lock.ts:202-233 | any base without an opening parenthesis with any nonempty balanced suffixes reads back as that base and exactly those suffixes |
| SnapshotKeys.FittingPrefix | buck2/dependencies/pnpm-lock.ts:28-35 | the byte loop stops at the longest prefix that fits |
| SnapshotKeys.VirtualStoreName | buck2/dependencies/pnpm-lock.ts:23-37 | at most 120 bytes; the expanded key when it fits, else its longest fitting prefix with a digest; determined by the key |
| SnapshotKeys.StoreNamesCollide | buck2/dependencies/pnpm-lock.ts:23-25 | two different keys with one store name |
| PosixPaths.NormalizeIdempotent | buck2/dependencies/pnpm-lock.ts:602-604 | normalizing a path text twice changes nothing more |
| PosixPaths.NormalLeadsThere | buck2/dependencies/pnpm-lock.ts:602-604 | the normal form leads to the same directory as the path, from anywhere |
| PosixPaths.LeavesIff | buck2/dependencies/pnpm-lock.ts:602-606 | the normal form starts with a step up exactly when the path at some point leaves its start |
| PnpmLock.LinkResolves | buck2/dependencies/pnpm-lock.ts:596-607 | a workspace link is accepted exactly when it is relative and never steps above the repository root |
| PnpmLock.LinkLeadsThere | buck2/dependencies/pnpm-lock.ts:602-607 | an accepted link is in normal form, has no step up and leads where following it from the importer leads |
| PnpmLock.SnapshotsByBase | buck2/dependencies/pnpm-lock.ts:577-583 | indexes every snapshot key under its base, and only there |
| PnpmLock.ReferenceIs | buck2/dependencies/pnpm-lock.ts:609-625 | a package reference is the first candidate that exists, or else the one snapshot sharing a base with a candidate; any other number of those is an error |
| PnpmLock.NamedReference | buck2/dependencies/pnpm-lock.ts:609-619 | a version names the package of its own name first, and an alias names the package it gives |
| PnpmLock.UnresolvedIff | buck2/dependencies/pnpm-lock.ts:609-625 | a reference fails as unresolved exactly when no snapshot shares a base with a candidate, and as ambiguous exactly when no candidate exists and several snapshots do |
| PnpmLock.ResolvedIsSound | buck2/dependencies/pnpm-lock.ts:585-626 | a resolved reference names an existing snapshot or a safe normalized path; outside an importer only a snapshot |
| PnpmLock.PackagePatchIsByKey | buck2/dependencies/pnpm-lock.ts:520-568 | a translated package is its own key, carries the patch recorded for that key, and has a path or an integrity and address by kind |
| PnpmLock.TranslatedPackageIs | buck2/dependencies/pnpm-lock.ts:497-569 | when a package translates, by its key, kind, integrity and version characters, and which of its fields the result carries over |
| PnpmLock.ArchiveAddress | buck2/dependencies/pnpm-lock.ts:235-241 | the archive of a scoped or unscoped package lies under its full name, in a file named by its name without scope and its version |
| PnpmLock.TranslatePackages | buck2/dependencies/pnpm-lock.ts:497-569 | translates all packages or fails on one that cannot be |
| PnpmLock.TranslateGroup | buck2/dependencies/pnpm-lock.ts:660-672 | resolves every reference of a group or fails on one that does not resolve |
| PnpmLock.SuffixesAreSorted | buck2/dependencies/pnpm-lock.ts:648-679 | every suffix is a patch identity or a peer identity, none is lost |
| PnpmLock.PatchChecked | buck2/dependencies/pnpm-lock.ts:649-659 | a snapshot passes exactly when it names the patch its package carries, once, or none when there is none |
| PnpmLock.ReadKey | buck2/dependencies/pnpm-lock.ts:644-659 | accepts exactly the keys whose package exists, whose suffixes read and whose patch agrees |
| PnpmLock.TranslateSnapshot | buck2/dependencies/pnpm-lock.ts:629-681 | one snapshot: succeeds exactly when it may, with its references, peers and store name |
| PnpmLock.TranslateSnapshots | buck2/dependencies/pnpm-lock.ts:628-682 | all snapshots, or a failure exactly when one fails |
| PnpmLock.TranslateImporter | buck2/dependencies/pnpm-lock.ts:691-736 | the three groups of an importer, or a failure exactly when one fails |
| PnpmLock.TranslateImporters | buck2/dependencies/pnpm-lock.ts:690-737 | all importers, each resolved from its own directory |
| PnpmLock.TranslationIsClosed | buck2/dependencies/pnpm-lock.ts:497-737 | every reference of a translated lockfile leads to something it has |
| PnpmLock.TranslatePnpmLock | buck2/dependencies/pnpm-lock.ts:408-755 | succeeds exactly when every package, snapshot and importer translates; the result is closed |
| LockToStore.OnlyIncompatible | buck2/dependencies/pnpm-store.ts:390-413 | on a closed lockfile resolving fails only on a mandatory package the platform does not admit: unknown snapshots and packages and missing paths cannot occur |
| LockToStore.SnapshotResolvesWhen | buck2/dependencies/pnpm-store.ts:416-467 | a snapshot resolves on a platform exactly when its mandatory dependencies are satisfied there |
| LockToStore.CompanionsExist | buck2/dependencies/pnpm-store.ts:297-333 | with one version per companion a choice of companions exists |
| LockToStore.ProjectableWhen | buck2/dependencies/pnpm-store.ts:662-810 | a translated lockfile projects exactly when companions have one version, store keys differ and mandatory dependencies are met |
| LockToStore.TranslationIsComplete | buck2/dependencies/pnpm-lock.ts:1007-1012 | a translated lockfile leaves no registry package out of the sidecar |
| ArchivePool.StepKeepsInv | buck2/dependencies/pnpm-lock.ts:1017-1049 | any step of any worker keeps: packages held by different workers differ, every claimed package is held or stored, and what is stored is what the package comes to alone |
| ArchivePool.EachClaimedOnce | buck2/dependencies/pnpm-lock.ts:1018-1019 | in any interleaving each package the cursor has passed was claimed in exactly one step |
| ArchivePool.RunsAreShort | buck2/dependencies/pnpm-lock.ts:1017-1052 | no interleaving takes more than three steps a package and one a worker |
| ArchivePool.FinishedIsFull | buck2/dependencies/pnpm-lock.ts:1053-1055 | when all workers have finished no slot is empty, and each holds what its package comes to alone |
| ArchivePool.SettledFinishedIff | buck2/dependencies/pnpm-lock.ts:1050-1052 | all workers finish exactly when every package can be derived, whatever the interleaving |
| ArchivePool.RunWorkers | buck2/dependencies/pnpm-lock.ts:1013-1055 | under any schedule the outcome is that of deriving the packages one after another; a failure is the real failure of some package |
| Sidecar.ValidatePnpmSha256Sidecar | buck2/dependencies/pnpm-lock.ts:857-897 | accepts exactly the sidecars that agree with the lockfile in fingerprint, identities, integrities, executables and seal |
| Sidecar.RegistryPackages | buck2/dependencies/pnpm-lock.ts:1007-1012 | lists exactly the registry packages with integrity and address, once each |
| Sidecar.DerivedAgrees | buck2/dependencies/pnpm-lock.ts:1024-1048 | a derived entry agrees with the lockfile exactly when it does not keep stale executables of a previous sidecar |
| Sidecar.DerivedIs | buck2/dependencies/pnpm-lock.ts:1024-1048 | deriving a package gives its previous entry where that can be kept, and otherwise the digest, integrity and executables of the bytes its address gives and its integrity matches; it fails exactly when there is no such entry |
| Sidecar.GeneratePnpmSha256Sidecar | buck2/dependencies/pnpm-lock.ts:989-1067 | under any schedule: succeeds exactly with at least one worker, every package obtainable, none left out and no stale executables kept; every entry of the valid result is the previous one or made from its archive |
| Sidecar.FreshNeverStale | buck2/dependencies/pnpm-lock.ts:1024-1033 | without a previous sidecar nothing stale is kept, so validation cannot fail |
| Sidecar.StaleBinsAreKept | buck2/dependencies/pnpm-lock.ts:1025-1033 | with one it can: for a lockfile whose package should have no executables and a previous sidecar that gave it some, every package derives and no file with what is derived is valid |
| SnapshotPublish.MoveKeepsInv | genie/ci-workflow/pr-snapshot.ts:728-809 | every call of every attempt, new attempt or moved tag keeps: writes are distinct, verified packages are in the registry with their integrity, receipts name whole cohorts |
| SnapshotPublish.WrittenAtMostOnce | genie/ci-workflow/pr-snapshot.ts:728-752 | over any run of a registry that refuses a second write, each package is written at most once and never changes |
| SnapshotPublish.ReceiptMeansPublished | genie/ci-workflow/pr-snapshot.ts:760-809 | a receipt exists only for a cohort wholly in the registry with its integrities, from then on for ever |
| SnapshotPublish.SeenCompleteIsPublished | genie/ci-workflow/pr-snapshot.ts:257-272 | what the dispatcher takes for complete is published |
| SnapshotPublish.ReceiptsAgree | genie/ci-workflow/pr-snapshot.ts:760-809 | two cohorts of one version that both have receipts agree on every package they share |
| SnapshotPublish.OtherTagIsFinal | genie/ci-workflow/pr-snapshot.ts:736-782 | an attempt that has read another version under a package's tag is stopped for good |
| SnapshotPublish.FinishAttempt | genie/ci-workflow/pr-snapshot.ts:728-809 | an attempt left alone, from any registry state, concludes exactly when the registry held nothing else under the cohort's names and no package is found later than at its twelfth check |
| SnapshotPublish.PartialCohortIsCompatible | genie/ci-workflow/pr-snapshot.ts:728-752 | whatever crashed attempts of one cohort left in the registry, it is nothing but part of that cohort |
| SnapshotPublish.RetryCohort | genie/ci-workflow/pr-snapshot.ts:728-809 | from any state that attempts of one cohort left, an attempt left alone publishes the whole cohort and writes its receipt, or stops at a package not found by its twelfth check |
| StorePaths.InsideIsPrefix | buck2/dependencies/assemble-store.ts:78-93 | the containment test accepts exactly the root and the paths below it |
| StorePaths.RelativeLeads | buck2/dependencies/assemble-store.ts:223-223 | a relative link leads from its directory to its target |
| StorePaths.OuterLinkStays | buck2/dependencies/assemble-store.ts:251-256 | a link out of the stage leads to the same place after the stage is renamed beside itself |
| StorePaths.InnerLinkMoves | buck2/dependencies/assemble-store.ts:16-18 | a link between two places of a tree leads to the moved counterpart wherever the tree is moved |
| StorePaths.OuterLinkMoves | buck2/dependencies/assemble-store.ts:16-18 | a link formed in a stage, to a target outside it below a common root, leads to the moved target after the stage is renamed and the root moved |
| StorePaths.CopiedLinkLeads | buck2/dependencies/assemble-store.ts:165-180 | a link of a copied tree leads to the copied counterpart when following it never leaves the tree |
| StorePaths.CopyPreservesIff | buck2/dependencies/assemble-store.ts:165-180 | a contained link leads to the counterpart in a given copy if and only if both trees end in the same components, as many as the link climbs out of the tree |
| StorePaths.EveryCopyPreservesIff | buck2/dependencies/assemble-store.ts:165-180 | a contained link leads to the counterpart in every copy if and only if following it never leaves the tree |
| StorePaths.ReturningLinkIsLost | buck2/dependencies/assemble-store.ts:165-170 | a link may pass the containment test by leaving the tree and coming back by its name, and lead out of the copy |
| StoreAssembly.Disk.Visit | buck2/dependencies/assemble-store.ts:120-185 | the recursive copy of a node: succeeds exactly when all links below it stay in the tree, by their text and resolved, and there is room, and then lays down the node and everything below it; otherwise it only adds |
| StoreAssembly.Disk.VisitDirectory | buck2/dependencies/assemble-store.ts:128-140 | a directory is made and its names copied one by one, which comes to the directory with everything below it |
| StoreAssembly.Disk.MaterializeTree | buck2/dependencies/assemble-store.ts:107-185 | copies a declared tree node for node, or fails and only adds below the destination or directories above it |
| StoreAssembly.Disk.AddRelativeLink | buck2/dependencies/assemble-store.ts:190-228 | succeeds exactly under its checks and then adds the link, its text relative to its own directory, and missing directories |
| StoreAssembly.Disk.Perform | buck2/dependencies/assemble-store.ts:291-348 | one step of an assembly changes nothing outside the stage |
| StoreAssembly.Disk.WithStaging | buck2/dependencies/assemble-store.ts:244-261 | all or nothing: the finished tree stands in the output's place, or everything is as before |
| StoreAssembly.AssembledLinkLeads | buck2/dependencies/assemble-store.ts:203-228 | in the renamed tree each link leads from its own directory to its target, outside the stage unchanged, inside it to the moved counterpart |
| StoreAssembly.AssembledLinkMoves | buck2/dependencies/assemble-store.ts:16-18 | when a root above the output is moved, each assembled link with its target below that root leads to the moved target, inside the output or outside |
| StoreAssembly.OnlyOutputChanges | buck2/dependencies/assemble-store.ts:244-261 | nothing outside the output changes |
| StoreAssembly.OccupiedOutputStays | buck2/dependencies/assemble-store.ts:244-261 | an assembly fails when anything but an empty directory stands at its output |
| StoreAssembly.CopyStands | buck2/dependencies/assemble-store.ts:107-185 | a copied tree stands in the assembled tree node for node |
| StoreAssembly.CopyStandsIn | buck2/dependencies/assemble-store.ts:107-185 | in the output a copy stands node for node as its source stood before, and every link of the source leads into it |
| StoreAssembly.WithinLeads | buck2/dependencies/assemble-store.ts:190-228 | a link between two places of the tree leads in the output to the place it was aimed at, which existed |
| StoreAssembly.DeclaredLeads | buck2/dependencies/assemble-store.ts:190-242 | a link into a declared tree leads in the output to the place it was aimed at, which existed and, resolved, lies in that tree |
| StoreAssembly.OutputAccounted | buck2/dependencies/assemble-store.ts:244-261 | every node of the output but directories is a link of some step or part of some copy |
| StoreAssembly.ViewHoldsNoFiles | buck2/dependencies/assemble-store.ts:501-507 | a view holds only directories and links |
| StoreTrees.EntryIsOneCopy | buck2/dependencies/assemble-store.ts:284-290 | an entry is one copy, of its own package, and links |
| StoreTrees.EntryLinksIff | buck2/dependencies/assemble-store.ts:304-309 | links are accepted exactly when names are portable and none repeats |
| StoreTrees.NamespacesApart | buck2/dependencies/assemble-store.ts:380-387 | the copies of two members never overlap |
| StoreTrees.SccCopiesApart | buck2/dependencies/assemble-store.ts:388-415 | the copies of a component come before its links and go to places none of which lies below another, so each finds its place free |
| StoreTrees.PortableIff | buck2/dependencies/assemble-store.ts:42-63 | a path is portable exactly when its components are plain and it has no backslash or NUL |
| StoreTrees.MembersIff | buck2/dependencies/assemble-store.ts:389-397 | members are accepted exactly when keys are single components, names are portable and no key repeats |
| StoreTrees.SccActsIff | buck2/dependencies/assemble-store.ts:388-493 | a component's arguments are accepted exactly when its members are, there is one, every edge joins members and every name is portable |
| StoreTrees.SccTreeStands | buck2/dependencies/assemble-store.ts:405-490 | each member's tree stands in its namespace, and each internal, external and executable link stands in its source's namespace and leads to the target's package or into the declared entry |
| StoreTrees.SccTreeHolds | buck2/dependencies/assemble-store.ts:388-493 | beyond directories a component holds nothing but its members' trees and its links |
| StoreTrees.EntryTreeStands | buck2/dependencies/assemble-store.ts:291-348 | the package stands below node_modules and each dependency and executable link beside it leads into the declared entry |
| StoreTrees.EntryTreeHolds | buck2/dependencies/assemble-store.ts:291-348 | beyond directories an entry holds nothing but its package and its links |
| StoreTrees.ViewTreeStands | buck2/dependencies/assemble-store.ts:508-556 | each link of a view stands under its name and leads into the declared entry or to the workspace |
| StoreTrees.ViewTreeHolds | buck2/dependencies/assemble-store.ts:501-556 | a view holds nothing but directories and the links it lists |
| StoreTrees.AssembleStoreEntry | buck2/dependencies/assemble-store.ts:291-348 | an entry is accepted exactly as its names allow; when it succeeds its package and links stand where they should and nothing else does, and otherwise nothing changes |
| StoreTrees.AssembleStoreScc | buck2/dependencies/assemble-store.ts:388-493 | a component is accepted exactly as its arguments allow; when it succeeds its members and links stand where they should and nothing else does, and otherwise nothing changes |
| StoreTrees.AssembleStoreView | buck2/dependencies/assemble-store.ts:508-556 | a view is accepted exactly as its names allow; when it succeeds its links lead where they should and nothing else is there, and otherwise nothing changes |
| OrderStatistics.PercentileAbove | genie/ci-workflow/measurements.ts:2120-2125 | when a percentile exceeds a bound so do all values from its rank on |
| OrderStatistics.PercentileIs | genie/ci-workflow/measurements.ts:2120-2125 | a percentile is the value at the floored rank: it exceeds exactly the bounds that all values from the rank on exceed |
| OrderStatistics.MedianIs | genie/ci-workflow/measurements.ts:2112-2118 | the median is the mean of the middle two values, one and the same when their number is odd |
| OrderStatistics.MedianAboveLower | genie/ci-workflow/measurements.ts:2112-2125 | no percentile at or below one half exceeds the median |
| OrderStatistics.DeviationNotNegative | genie/ci-workflow/measurements.ts:2162-2162 | the median absolute deviation is never negative |
| Classifier.GateableIffEligible | genie/ci-workflow/measurements.ts:2273-2290 | a row is gateable if and only if its gate reason is eligible |
| Classifier.ReasonsAgree | genie/ci-workflow/measurements.ts:2281-2304 | beyond the noise, gate reason and confidence hold an enabled row back for the same reason, or for none in both |
| Classifier.StatusIff | genie/ci-workflow/measurements.ts:2263-2310 | a row fails or warns exactly when it can be gated, exceeds that threshold and the noise, and is not suppressed |
| Classifier.UnpairedStatusIs | genie/ci-workflow/measurements.ts:2263-2310 | an unpaired row fails exactly when it counts, its increase exceeds the absolute threshold and its value the relative one, and warns exactly when it does not fail and exceeds both warn thresholds |
| Classifier.PairedStatusIs | genie/ci-workflow/measurements.ts:2263-2310 | a paired row fails or warns exactly when it counts and its lower evidence bound exceeds that budget |
| Classifier.BudgetIs | genie/ci-workflow/measurements.ts:2249-2250 | a budget is the greatest of its absolute threshold, its part of the baseline, the noise and the least budget |
| Classifier.RaisingKeepsAlarm | genie/ci-workflow/measurements.ts:2263-2310 | outside suppression a higher value never makes an alarming unpaired row pass again, if and only if the value was above its baseline |
| Classifier.BandIff | genie/ci-workflow/measurements.ts:2252-2255 | the bands overlap exactly when the values are no further apart than both tolerances together |
| Classifier.EvidenceIs | genie/ci-workflow/measurements.ts:2217-2248 | the evidence is the recorded median or the move, and its bounds are the deltas at two ranks or lie a tolerance on either side |
| Classifier.ToleranceIs | genie/ci-workflow/measurements.ts:2222-2242 | a tolerance is the greatest of the noise, the two tolerances of the policy and the two measures of spread |
| Classifier.DefaultSizesFail | genie/ci-workflow/measurements.ts:2176-2204 | under the default policies each kind of size fails and warns at these amounts and ratios |
| Classifier.DefaultDurationsFail | genie/ci-workflow/measurements.ts:2176-2204 | under the default policy a duration fails and warns at these amounts and ratios, with ten baselines, three samples and outside the bands |
| Classifier.DefaultNoise | genie/ci-workflow/measurements.ts:2189-2194 | the amounts up to which a default policy calls a move noise, in both directions |
| Classifier.ImpactIs | genie/ci-workflow/measurements.ts:2323-2337 | the impact of an unpaired row is its whole move in warn budgets when a threshold is exceeded, and otherwise what lies beyond both tolerances |
| Classifier.PairedImpactIs | genie/ci-workflow/measurements.ts:2323-2330 | the impact of a paired row is its nearer evidence bound in warn budgets, and none when the bounds enclose zero |
| Classifier.AlarmKindIs | genie/ci-workflow/measurements.ts:2338-2347 | where an alarming unpaired row lies is decided by its move against the two budgets |
| Classifier.SummaryIs | genie/ci-workflow/measurements.ts:2136-2162 | a side is summarised by its median, its quartiles and the median of its distances from the median |
| Classifier.ImpactMatchesDirection | genie/ci-workflow/measurements.ts:2311-2337 | a positive impact means regressed, a negative one improved, and unchanged means none |
| Classifier.EvidenceBoundsInOrder | genie/ci-workflow/measurements.ts:2247-2248 | the lower evidence bound never exceeds the upper one for quantiles up to one half |
| Classifier.PairedFailIsBacked | genie/ci-workflow/measurements.ts:2247-2266 | a failing paired row with n deltas has at least n minus the quantile's rank of them above the fail budget |
| Classifier.PairedFailKind | genie/ci-workflow/measurements.ts:2323-2347 | a failing paired row is on the fail boundary if and only if its median delta is an increase beyond the noise |
| Classifier.UnpairedFailKind | genie/ci-workflow/measurements.ts:2323-2347 | any other failing row is on the fail boundary if and only if its increase reaches the smallest budget |
| Classifier.UnpairedFailIsBoundary | genie/ci-workflow/measurements.ts:2323-2347 | with an absolute fail threshold of at least that budget every such row is on the boundary and regressed |
| Classifier.PairedFailIsBoundary | genie/ci-workflow/measurements.ts:2323-2347 | a failing paired row whose median is that of its deltas is on the boundary and regressed, for quantiles up to one half |
| Classifier.OneSourceFailIsBoundary | genie/ci-workflow/measurements.ts:2146-2165 | with one source this always holds |
| Classifier.TwoSourcesCanLookImproved | genie/ci-workflow/measurements.ts:2146-2165 | with two sources a row can fail while its direction is improved |
| Classifier.DefaultsSuffice | genie/ci-workflow/measurements.ts:2176-2207 | an observation's policy meets what these results ask for exactly when what it sets itself does |
| Classifier.SummariesSpread | genie/ci-workflow/measurements.ts:2143-2173 | a summary made from values never has a negative spread |
| Classifier.CountsAgree | genie/ci-workflow/measurements.ts:2447-2462 | no more rows are gateable than enabled, and as many exactly when every enabled row is gateable |
| Classifier.ReadinessIsConsistent | genie/ci-workflow/measurements.ts:2433-2462 | the count of rows that cannot be gated is never negative, and without failing or warning rows the report passes exactly when it is enforceable |
| Classifier.OverallFailIsGated | genie/ci-workflow/measurements.ts:2433-2446 | the report fails exactly when some row does, and only gateable rows fail or warn |
| Classifier.OverallIs | genie/ci-workflow/measurements.ts:2433-2446 | the report fails when a row fails, else warns when one warns, else is partial exactly when an enabled row cannot be gated |
| Classifier.CountsAre | genie/ci-workflow/measurements.ts:2447-2462 | the two counts of the report are those of its enabled and its gateable rows |
| ShellQuoting.QuotedReads | genie/ci-workflow/shared.ts:241-241 | a quoted value is read by the shell as exactly that value, within the word it stands in |
| ShellQuoting.ArgumentsRoundTripIff | genie/ci-workflow/measurements.ts:447-447 | quoted arguments joined by spaces read back as exactly those arguments if and only if none holds a NUL |
| ShellQuoting.CommandLineReads | genie/ci-workflow/measurements.ts:461-461 | a program name and its quoted arguments read back as one command |
| ShellQuoting.DefaultRetryReads | genie/ci-workflow/shared.ts:400-412 | the retry wrapper passes script, label and command on exactly, and a command of quoted arguments reads back in turn |
| ShellQuoting.PreparedRetryReads | genie/ci-workflow/shared.ts:414-417 | of the two-line form the first line is one assignment of the script to the variable, and the second, read with it in effect, runs the script with label and command |
| TarScan.FindManifest | buck2/dependencies/pnpm-lock.ts:924-956 | the offset loop reads in bounds and moves forward by whole blocks; of an archive of ustar records it gives the manifest's content, byte for byte, or none, when every record without data up to the manifest has size zero |
| TarScan.ScanFindsFirst | buck2/dependencies/pnpm-lock.ts:924-956 | after any prefix of records, records that hold what their headers say are scanned one by one up to the first manifest |
| TarScan.HeaderReads | buck2/dependencies/pnpm-lock.ts:927-938 | a ustar header block, given by the bytes of its name, prefix and size fields, reads as the path and size that were written |
| TarScan.ManifestFound | buck2/dependencies/pnpm-lock.ts:924-956 | of an archive whose records write these files, those without data having size zero up to the manifest, the scan finds the content of the first file with the manifest's path, or none |
| TarScan.RecordReadsIff | buck2/dependencies/pnpm-lock.ts:935-955 | whatever well-formed records follow it, a record lets the scan find the first manifest if and only if its typeflag stores data or its size is zero |
| TarScan.SizedDirectoryHidesManifest | buck2/dependencies/pnpm-lock.ts:935-955 | after a record without data but with a size, the scan skips what follows and misses a manifest that ends where the skip does |
| TarScan.DirectoryHidesManifest | buck2/dependencies/pnpm-lock.ts:935-955 | a directory of size 512 followed by an empty manifest is such an archive |
| TarScan.FirstManifestIs | buck2/dependencies/pnpm-lock.ts:943-951 | what is found is the content of the first file with that path |
| TarScan.NoManifestIs | buck2/dependencies/pnpm-lock.ts:957-958 | nothing is found exactly when no file has that path |
| TarScan.FieldReads | buck2/dependencies/pnpm-lock.ts:927-931 | a name field, filled or ended by a NUL, reads as its name whatever follows the NUL |
| TarScan.SizeReads | buck2/dependencies/pnpm-lock.ts:935-938 | a size field of octal digits, ended by spaces and NULs, reads as its size |
| TarScan.OctalRoundTrip | buck2/dependencies/pnpm-lock.ts:935-938 | a size that fits its digits reads back as it was written |
| CanonicalJson.FieldsAre | genie/buck2/mod.ts:34-39 | a normalized object lists exactly the normalized defined properties, in key order |
| CanonicalJson.CanonicalExistsIff | genie/buck2/mod.ts:20-32 | normalizing fails exactly on values JSON cannot express, at any depth |
| CanonicalJson.IndexLikeIff | genie/buck2/mod.ts:34-39 | the keys enumerated as array indices are exactly the decimal numbers below the limit |
| CanonicalJson.KeyOrderIs | genie/buck2/mod.ts:34-39 | indices come in numeric order before all other keys, which come in string order |
| CanonicalJson.CanonicalIff | genie/buck2/mod.ts:15-39 | two values have one normal form if and only if they are equal up to key order and undefined keys, at every depth |
| CanonicalJson.CanonicalMeansTheSame | genie/buck2/mod.ts:15-39 | a normal form means what its value means |
| CanonicalJson.CanonicalIdempotent | genie/buck2/mod.ts:15-39 | normalizing twice changes nothing more |
| CanonicalJson.FingerprintIff | genie/buck2/mod.ts:50-67 | equal generator, version and meaning give equal fingerprints, and unless the two normal forms at hand are printed or hashed alike, fingerprints are equal if and only if those are |

## Left out

- StoreTargets.TargetsAreAcyclic: a target is its store key, component number or importer; the digest-based names targets are declared under, and with them a collision of two such names, are not modelled.
- StoreProjection.MakeEntry: groups keep first-seen order, where the source sorts them by identity text; lookups by platform do not see the order.
- PnpmStore.MakePnpmStoreProjection: starts after the sidecar has been validated, which `Sidecar.ValidatePnpmSha256Sidecar` models on its own.
- PlatformGroups.GroupByPlatform: identities are compared as structures rather than as JSON text, and groups keep first-seen order rather than the order of those texts.
- RootBins.OrderIrrelevantIff: locale comparison is a parameter assumed to be a total preorder that separates different names; leading integers of version segments are unbounded.
- StoreBuck.RenderScc: the tab-joined record key of a component link is the pair of member and name.
- PnpmLock.TranslatePnpmLock: starts from parsed records; settings, overrides, lockfile version, unknown fields and the comparison of patch files are not modelled, and patches arrive already checked.
- PnpmLock.ReferenceIs: records are maps with own keys only; the source looks names up in plain objects, so a version text such as `toString` would find an inherited property there.
- PnpmLock.LinkLeadsThere: a trailing slash of a link is kept, as the source keeps it, so the same directory can have two path texts.
- SnapshotKeys.VirtualStoreName: characters are Unicode scalar values; an unpaired surrogate is not modelled.
- ArchivePool.RunWorkers: a download is a function of its address, so two downloads of one address agree; after a failure the remaining workers are still carried to their end.
- SnapshotPublish.SeenCompleteIsPublished: the dispatcher's choice of workflow run and artifact, and its own look at the registry, are one step that sees a concluded attempt.
- SnapshotPublish.FinishAttempt: one version and one tag per registry; a failed read is the same as an absent one.
- StoreAssembly.Disk.Visit: the declared tree is read as it stood before the copy began, which differs only for a tree that contains the stage; a link's target is a list of components, so absolute targets do not occur.
- StoreAssembly.Disk.WithStaging: the stage's name is assumed unused, as a random name is; directories reached through links are not modelled, nor are file modes and hard links.
- StoreAssembly.Disk.Perform: the steps of an assembly are listed first and then carried out, where the source interleaves its argument checks with them; both leave nothing behind on a failure.
- Classifier.StatusIff: numbers are reals, quantiles lie between zero and one, and a policy field is absent or a value, never an explicit null; the ratio and baseline-range fields of the output are not modelled.
- ShellQuoting.ArgumentsRoundTripIff: of the shell's expansions only a variable in double quotes is modelled; any other unquoted operator, expansion or pattern makes the reading fail.
- TarScan.ManifestFound: checksum, magic and the other header fields are not looked at, as in the source, and extended headers are records like any other.
- TarScan.FieldReads: text decoding is a parameter that maps leading ASCII bytes to themselves; names outside ASCII and byte order marks are whatever the decoder makes of them.
- StoreKeyNames.NameRecoveredIff: names are free of parentheses, as those of accepted snapshot keys are; digests are sixteen hexadecimal digits.
- CanonicalJson.CanonicalIff: numbers are reals without negative zero; values with a `toJSON` of their own are not modelled.
- String order is by code point; the source compares UTF-16 code units, which differ above the basic plane.
- The rendered Starlark text, package and platform-gated targets, and everything an archive's manifest says about executables: texts and single-field checks.
- Authorization, attestation and tokens of the publish workflow, and the rest of the measurement harness and its reports: outside the protocols modelled here.
