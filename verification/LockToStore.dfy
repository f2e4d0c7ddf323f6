/** What the store projection may rely on when its lockfile comes from the translator. */
module LockToStore {
  import opened Common
  import opened Metadata
  import opened StoreEdges
  import opened StoreProjection
  import opened PnpmStore
  import opened PnpmLock
  import Sidecar

  /** A mandatory reference the platform can satisfy. */
  ghost predicate Satisfied(md: Lock, p: Platform, reference: Reference) {
    reference.PackageRef? ==>
      && reference.snapshot in md.snapshots && md.snapshots[reference.snapshot].package in md.packages
      && var found := md.packages[md.snapshots[reference.snapshot].package];
         found.resolution.Workspace? || RunsOn(found, p) || md.snapshots[reference.snapshot].optional
  }

  /** In a closed lockfile only an incompatible package can stop a reference, and only a mandatory one. */
  lemma OnlyIncompatible(c: Config, optional: bool, reference: Reference)
    requires ClosedLock(c.md) && SoundReference(c.md.snapshots.Keys, reference)
    ensures ResolveEdge(c, optional, reference).Success? <==> optional || Satisfied(c.md, c.platform, reference)
    ensures ResolveEdge(c, optional, reference).Failure? ==>
      reference.PackageRef? && ResolveEdge(c, optional, reference).error == Incompatible(reference.snapshot, c.platform)
  {
    hide PackageAllowed, RunsOn;
    forall p, platform ensures PackageAllowed(p, platform) <==> RunsOn(p, platform) { AllowedIff(p, platform); }
  }

  lemma GroupResolvesWhen(c: Config, optional: bool, group: References)
    requires ClosedLock(c.md) && SoundGroup(c.md.snapshots.Keys, group)
    ensures GroupResolves(c, optional, group) <==>
      optional || forall n | n in group :: Satisfied(c.md, c.platform, group[n])
  {
    hide PackageAllowed, ClosedLock, Satisfied, ResolveEdge, SoundReference;
    forall n | n in group
      ensures ResolveEdge(c, optional, group[n]).Success? <==> optional || Satisfied(c.md, c.platform, group[n])
    {
      OnlyIncompatible(c, optional, group[n]);
    }
  }

  lemma PackageGroupIsSound(md: Lock, group: References)
    requires forall n | n in group :: group[n].PackageRef? && group[n].snapshot in md.snapshots
    ensures SoundGroup(md.snapshots.Keys, group)
  {
  }

  lemma CompanionsAreSound(md: Lock, companions: map<string, string>, s: Snapshot)
    requires IsCompanions(md, companions)
    ensures SoundGroup(md.snapshots.Keys, PeerTypeCompanionsOf(companions, s))
  {
    hide PeerCompanionNames;
    var peers := PeerTypeCompanionsOf(companions, s);
    forall n | n in peers
      ensures peers[n].PackageRef? && peers[n].snapshot in md.snapshots
    {
      assert ChosenFor(md, n, companions[n]);
    }
    PackageGroupIsSound(md, peers);
  }

  lemma SnapshotResolvesWhen(c: Config, companions: map<string, string>, s: string)
    requires ClosedLock(c.md) && IsCompanions(c.md, companions) && s in c.md.snapshots
    ensures SnapshotResolves(c, companions, c.md.snapshots[s]) <==>
      forall n | n in c.md.snapshots[s].dependencies :: Satisfied(c.md, c.platform, c.md.snapshots[s].dependencies[n])
  {
    hide Satisfied, PeerTypeCompanionsOf, GroupResolves, IsCompanions, SoundGroup;
    var snapshot := c.md.snapshots[s];
    PackageGroupIsSound(c.md, snapshot.dependencies);
    PackageGroupIsSound(c.md, snapshot.optionalDependencies);
    CompanionsAreSound(c.md, companions, snapshot);
    GroupResolvesWhen(c, false, snapshot.dependencies);
    GroupResolvesWhen(c, true, snapshot.optionalDependencies);
    GroupResolvesWhen(c, true, PeerTypeCompanionsOf(companions, snapshot));
  }

  lemma ImporterResolvesWhen(c: Config, i: string)
    requires ClosedLock(c.md) && i in c.md.importers
    ensures ImporterResolves(c, c.md.importers[i]) <==>
      && (forall n | n in c.md.importers[i].dependencies ::
            Satisfied(c.md, c.platform, c.md.importers[i].dependencies[n]))
      && (forall n | n in c.md.importers[i].devDependencies ::
            Satisfied(c.md, c.platform, c.md.importers[i].devDependencies[n]))
  {
    hide Satisfied, GroupResolves, SoundGroup;
    GroupResolvesWhen(c, false, c.md.importers[i].dependencies);
    GroupResolvesWhen(c, false, c.md.importers[i].devDependencies);
    GroupResolvesWhen(c, true, c.md.importers[i].optionalDependencies);
  }

  ghost predicate ImporterSatisfied(md: Lock, i: string, p: Platform)
    requires i in md.importers
  {
    && (forall n | n in md.importers[i].dependencies :: Satisfied(md, p, md.importers[i].dependencies[n]))
    && (forall n | n in md.importers[i].devDependencies :: Satisfied(md, p, md.importers[i].devDependencies[n]))
  }

  ghost predicate SnapshotSatisfied(md: Lock, s: string, p: Platform)
    requires s in md.snapshots
  {
    forall n | n in md.snapshots[s].dependencies :: Satisfied(md, p, md.snapshots[s].dependencies[n])
  }

  /** Whatever is installed on a platform finds its mandatory dependencies there. */
  ghost predicate MandatorySatisfied(md: Lock) {
    && (forall s, p | IsStorePackage(md, s) && RunsOn(PackageOf(md, s), p) :: SnapshotSatisfied(md, s, p))
    && (forall i, p | i in md.importers :: ImporterSatisfied(md, i, p))
  }

  lemma AllResolveWhen(st: Store)
    requires ClosedLock(st.md) && IsCompanions(st.md, st.companions)
    ensures AllResolve(st) <==>
      forall s, p | IsStorePackage(st.md, s) && RunsOn(PackageOf(st.md, s), p) :: SnapshotSatisfied(st.md, s, p)
  {
    hide Satisfied, IsCompanions, ClosedLock, PackageAllowed, RunsOn, SnapshotResolves;
    forall s, p | IsStorePackage(st.md, s)
      ensures ResolvesAt(st, s, p) <==> SnapshotSatisfied(st.md, s, p)
      ensures PackageAllowed(PackageOf(st.md, s), p) <==> RunsOn(PackageOf(st.md, s), p)
    {
      AllowedIff(PackageOf(st.md, s), p);
      SnapshotResolvesWhen(Config(st.md, p, st.workspaceKey), st.companions, s);
    }
  }

  lemma ImportersResolveWhen(md: Lock, workspaceKey: string -> string)
    requires ClosedLock(md)
    ensures ImportersResolve(md, workspaceKey) <==> forall i, p | i in md.importers :: ImporterSatisfied(md, i, p)
  {
    hide Satisfied, ClosedLock, ImporterResolves;
    forall i, p: Platform | i in md.importers
      ensures ImporterResolves(Config(md, p, workspaceKey), md.importers[i]) <==> ImporterSatisfied(md, i, p)
    {
      ImporterResolvesWhen(Config(md, p, workspaceKey), i);
    }
  }

  // ----- Companions exist -----

  lemma {:induction false} PreferredExists(md: Lock, keys: set<string>) returns (best: string)
    requires keys != {} && forall k | k in keys :: k in md.snapshots
    ensures best in keys && forall k | k in keys :: k == best || Preferred(md, best, k)
    decreases |keys|
  {
    hide Preferred;
    var first :| first in keys;
    if keys == {first} {
      best := first;
    } else {
      var rest := PreferredExists(md, keys - {first});
      PreferredTotal(md, first, rest);
      if Preferred(md, rest, first) {
        best := rest;
      } else {
        best := first;
        forall k | k in keys && k != first
          ensures Preferred(md, first, k)
        {
          if k != rest { PreferredTransitive(md, first, rest, k); }
        }
      }
    }
  }

  lemma ChosenExists(md: Lock, name: string, key: string)
    requires OneCompanionVersion(md) && Candidate(md, name, key)
    ensures exists best :: ChosenFor(md, name, best)
  {
    hide Preferred;
    var keys := set k | k in md.snapshots && Candidate(md, name, k);
    assert key in keys;
    var best := PreferredExists(md, keys);
    assert ChosenFor(md, name, best);
  }

  lemma CompanionsExist(md: Lock)
    requires OneCompanionVersion(md)
    ensures exists companions :: IsCompanions(md, companions)
  {
    hide Preferred, Candidate, OneCompanionVersion;
    var keys := set k | k in md.snapshots && exists name :: Candidate(md, name, k);
    var names := set k | k in keys && IsStorePackage(md, k) :: PackageOf(md, k).name;
    forall name, key | Candidate(md, name, key)
      ensures name in names && exists best :: ChosenFor(md, name, best)
    {
      CandidateName(md, name, key);
      ChosenExists(md, name, key);
    }
    forall name | name in names
      ensures exists best :: ChosenFor(md, name, best)
    {
      var k :| k in keys && IsStorePackage(md, k) && PackageOf(md, k).name == name;
      var other :| Candidate(md, other, k);
      CandidateName(md, other, k);
    }
    var companions := map name | name in names :: ChosenOne(md, name);
    assert IsCompanions(md, companions);
  }

  lemma CandidateName(md: Lock, name: string, key: string)
    requires Candidate(md, name, key)
    ensures IsStorePackage(md, key) && PackageOf(md, key).name == name
  {
  }

  ghost function ChosenOne(md: Lock, name: string): string
    requires exists best :: ChosenFor(md, name, best)
    ensures ChosenFor(md, name, ChosenOne(md, name))
  {
    var best :| ChosenFor(md, name, best); best
  }

  lemma ClosedKnowsPackages(md: Lock)
    requires ClosedLock(md)
    ensures PackagesKnown(md)
  {
  }

  /**
   * A translated lockfile projects exactly when companions have one version, store keys differ and mandatory
   * dependencies are met.
   */
  lemma ProjectableWhen(md: Lock, workspaceKey: string -> string)
    requires ClosedLock(md)
    ensures Projectable(md, workspaceKey) <==> OneCompanionVersion(md) && KeysDistinct(md) && MandatorySatisfied(md)
  {
    hide SnapshotSatisfied, ImporterSatisfied, ClosedLock, IsCompanions, AllResolve, ImportersResolve,
         OneCompanionVersion, KeysDistinct,
         PackagesKnown, PackageAllowed, RunsOn;
    ClosedKnowsPackages(md);
    ImportersResolveWhen(md, workspaceKey);
    if OneCompanionVersion(md) {
      CompanionsExist(md);
      var companions :| IsCompanions(md, companions);
      var st := Store(md, workspaceKey, companions);
      OneStore(st);
      AllResolveWhen(st);
    }
  }

  /**
   * A translated lockfile gives every registry package its integrity and address, so none is left out of the sidecar.
   */
  lemma TranslationIsComplete(policy: Policy, scope: Scope, raw: RawLock, md: Lock)
    requires IsTranslation(policy, scope, raw, md)
    ensures Sidecar.Complete(md)
  {
    hide SnapshotTranslates, SnapshotIs, ImporterIs, TranslatePackage;
    forall k | Sidecar.IsRegistry(md, k)
      ensures Sidecar.IsArchive(md, k)
    {
      PackagePatchIsByKey(policy, k, raw.packages[k]);
    }
  }
}
