/** Generating and validating the archive sidecar. */
module Sidecar {
  import opened Common
  import opened Metadata
  import opened ArchivePool

  /** The generated file: the lockfile it belongs to, its packages and its own fingerprint. */
  datatype SidecarFile = SidecarFile(lockFingerprint: string, packages: map<string, SidecarEntry>, fingerprint: string)

  /** The lockfile as the generator sees it; seal is the digest of a sidecar's content. */
  datatype Source = Source(md: Lock, lockFingerprint: string, seal: (string, map<string, SidecarEntry>) -> string)

  datatype SidecarError = StaleLock | StaleIdentities | StaleIntegrity(key: string) | StaleBins(key: string) | WrongSeal
    | NoWorkers | PoolFailed(error: PoolError)

  predicate IsRegistry(md: Lock, k: string) {
    k in md.packages && md.packages[k].resolution.Registry?
  }

  /** The registry packages that say where their archive is and what it must hash to. */
  predicate IsArchive(md: Lock, k: string) {
    IsRegistry(md, k) && md.packages[k].integrity.Some? && md.packages[k].url.Some?
  }

  function ItemOf(md: Lock, k: string): Item
    requires IsArchive(md, k)
  {
    var p := md.packages[k];
    Item(k, p.name, p.hasBin, p.integrity.value, p.url.value)
  }

  // ----- Validation -----

  /** The sidecar agrees with the lockfile on a package's integrity and on whether it has executables. */
  ghost predicate Agrees(md: Lock, packages: map<string, SidecarEntry>, k: string) {
    && IsRegistry(md, k) && k in packages
    && md.packages[k].integrity == Some(packages[k].integrity)
    && (md.packages[k].hasBin <==> |packages[k].bins| > 0)
  }

  ghost predicate Valid(source: Source, file: SidecarFile) {
    && file.lockFingerprint == source.lockFingerprint
    && (forall k :: k in file.packages <==> IsRegistry(source.md, k))
    && (forall k | k in file.packages :: Agrees(source.md, file.packages, k))
    && file.fingerprint == source.seal(file.lockFingerprint, file.packages)
  }

  method ValidatePnpmSha256Sidecar(source: Source, file: SidecarFile) returns (error: Option<SidecarError>)
    ensures error.None? <==> Valid(source, file)
    ensures error == Some(StaleLock) <==> file.lockFingerprint != source.lockFingerprint
    ensures error == Some(StaleIdentities) <==>
      && file.lockFingerprint == source.lockFingerprint
      && file.packages.Keys != set k | k in source.md.packages && IsRegistry(source.md, k)
    ensures error.Some? && error.value.StaleIntegrity? ==>
      && IsRegistry(source.md, error.value.key) && error.value.key in file.packages
      && source.md.packages[error.value.key].integrity != Some(file.packages[error.value.key].integrity)
    ensures error.Some? && error.value.StaleBins? ==>
      && IsRegistry(source.md, error.value.key) && error.value.key in file.packages
      && (source.md.packages[error.value.key].hasBin <==> file.packages[error.value.key].bins == map[])
    ensures error == Some(WrongSeal) ==>
      && file.fingerprint != source.seal(file.lockFingerprint, file.packages)
      && forall k | IsRegistry(source.md, k) :: Agrees(source.md, file.packages, k)
  {
    if file.lockFingerprint != source.lockFingerprint {
      return Some(StaleLock);
    }
    var expected := SortedNames(set k | k in source.md.packages && IsRegistry(source.md, k));
    var actual := SortedNames(file.packages.Keys);
    if actual != expected {
      if forall k :: k in file.packages <==> IsRegistry(source.md, k) {
        SortedUnique(actual, expected);
      }
      return Some(StaleIdentities);
    }
    assert forall k :: k in file.packages <==> k in actual;
    assert forall k :: IsRegistry(source.md, k) <==> k in expected;
    for i := 0 to |expected|
      invariant forall j | 0 <= j < i :: Agrees(source.md, file.packages, expected[j])
    {
      var key := expected[i];
      assert key in expected;
      if source.md.packages[key].integrity != Some(file.packages[key].integrity) {
        return Some(StaleIntegrity(key));
      }
      if source.md.packages[key].hasBin != (|file.packages[key].bins| > 0) {
        return Some(StaleBins(key));
      }
    }
    if file.fingerprint != source.seal(file.lockFingerprint, file.packages) {
      return Some(WrongSeal);
    }
    return None;
  }

  // ----- Generation -----

  /** The items are the archives of the lockfile, in key order. */
  ghost predicate ItemsOf(md: Lock, items: seq<Item>) {
    && DistinctKeys(items)
    && (forall i | 0 <= i < |items| :: IsArchive(md, items[i].key) && items[i] == ItemOf(md, items[i].key))
    && (forall k | IsArchive(md, k) :: exists i :: 0 <= i < |items| && items[i].key == k)
  }

  method RegistryPackages(md: Lock) returns (items: seq<Item>)
    ensures ItemsOf(md, items)
  {
    var keys := SortedNames(set k | k in md.packages && IsArchive(md, k));
    items := [];
    for i := 0 to |keys|
      invariant |items| == i && forall j | 0 <= j < i :: IsArchive(md, keys[j]) && items[j] == ItemOf(md, keys[j])
    {
      assert keys[i] in keys;
      items := items + [ItemOf(md, keys[i])];
    }
    forall k | IsArchive(md, k)
      ensures exists i :: 0 <= i < |items| && items[i].key == k
    {
      assert k in keys;
      var i :| 0 <= i < |keys| && keys[i] == k;
      assert items[i].key == k;
    }
    forall i, j | 0 <= i < j < |items|
      ensures items[i].key != items[j].key
    {
      BeforeIrreflexive(keys[i]);
    }
  }

  /** A package that should have none keeps the executables a previous sidecar gave it. */
  ghost predicate KeepsStaleBins(pool: Pool, item: Item) {
    !item.hasBin && Reusable(pool, item) && |pool.previous[item.key].bins| > 0
  }

  /** What is derived agrees with the lockfile exactly when no stale executables are kept. */
  lemma DerivedAgrees(md: Lock, pool: Pool, packages: map<string, SidecarEntry>, i: nat)
    requires ItemsOf(md, pool.items) && Packages(pool, packages) && i < |pool.items|
    ensures Agrees(md, packages, pool.items[i].key) <==> !KeepsStaleBins(pool, pool.items[i])
  {
  }

  /** Every registry package of a translated lockfile has its integrity and address. */
  ghost predicate Complete(md: Lock) {
    forall k | IsRegistry(md, k) :: IsArchive(md, k)
  }

  // ----- What an entry holds -----

  /** The previous entry still belongs to the package: its integrity, a digest, and executables if it needs some. */
  ghost predicate CanKeep(world: World, previous: map<string, SidecarEntry>, md: Lock, k: string)
    requires IsArchive(md, k)
  {
    && k in previous && Some(previous[k].integrity) == md.packages[k].integrity
    && world.isSha256(previous[k].sha256) && (md.packages[k].hasBin ==> previous[k].bins != map[])
  }

  /** Made from these bytes: downloaded from the package's address, matching its integrity, and of this digest. */
  ghost predicate MadeFrom(world: World, md: Lock, k: string, entry: SidecarEntry, bytes: Bytes)
    requires IsArchive(md, k)
  {
    && world.fetch(md.packages[k].url.value) == Some(bytes)
    && world.matches(bytes, md.packages[k].integrity.value)
    && Some(entry.integrity) == md.packages[k].integrity && entry.sha256 == world.sha256(bytes)
    && if md.packages[k].hasBin then
         world.archiveBins(bytes, md.packages[k].name) == Some(entry.bins) && entry.bins != map[]
       else entry.bins == map[]
  }

  /** A package's entry is the previous one where that can be kept, and is made from its archive otherwise. */
  ghost predicate EntryIs(world: World, previous: map<string, SidecarEntry>, md: Lock, k: string, entry: SidecarEntry)
    requires IsArchive(md, k)
  {
    if CanKeep(world, previous, md, k) then entry == previous[k]
    else exists bytes :: MadeFrom(world, md, k, entry, bytes)
  }

  ghost predicate Obtainable(world: World, previous: map<string, SidecarEntry>, md: Lock, k: string)
    requires IsArchive(md, k)
  {
    exists entry :: EntryIs(world, previous, md, k, entry)
  }

  /** Deriving a package gives the one entry it can have, and fails exactly when there is none. */
  lemma DerivedIs(pool: Pool, md: Lock, k: string)
    requires IsArchive(md, k)
    ensures Derive(pool, ItemOf(md, k)).Success? <==> Obtainable(pool.world, pool.previous, md, k)
    ensures forall entry ::
      Derive(pool, ItemOf(md, k)) == Success(entry) <==> EntryIs(pool.world, pool.previous, md, k, entry)
  {
    var item := ItemOf(md, k);
    forall entry
      ensures Derive(pool, item) == Success(entry) <==> EntryIs(pool.world, pool.previous, md, k, entry)
    {
      if Derive(pool, item) == Success(entry) && !Reusable(pool, item) {
        assert MadeFrom(pool.world, md, k, entry, pool.world.fetch(item.url).value);
      }
    }
    if Derive(pool, item).Success? {
      assert EntryIs(pool.world, pool.previous, md, k, Derive(pool, item).value);
    }
  }

  lemma AllDeriveIff(pool: Pool, md: Lock)
    requires ItemsOf(md, pool.items)
    ensures AllDerive(pool) <==> forall k | IsArchive(md, k) :: Obtainable(pool.world, pool.previous, md, k)
  {
    hide Derive, Obtainable, EntryIs;
    forall k | IsArchive(md, k)
      ensures Derive(pool, ItemOf(md, k)).Success? <==> Obtainable(pool.world, pool.previous, md, k)
    {
      DerivedIs(pool, md, k);
    }
    if AllDerive(pool) {
      forall k | IsArchive(md, k)
        ensures Obtainable(pool.world, pool.previous, md, k)
      {
        var i :| 0 <= i < |pool.items| && pool.items[i].key == k;
      }
    }
  }

  lemma EntriesAre(pool: Pool, md: Lock, packages: map<string, SidecarEntry>)
    requires ItemsOf(md, pool.items) && Packages(pool, packages)
    ensures forall k | IsArchive(md, k) ::
      k in packages && EntryIs(pool.world, pool.previous, md, k, packages[k])
  {
    hide Derive, EntryIs;
    forall k | IsArchive(md, k)
      ensures k in packages && EntryIs(pool.world, pool.previous, md, k, packages[k])
    {
      var i :| 0 <= i < |pool.items| && pool.items[i].key == k;
      DerivedIs(pool, md, k);
    }
  }

  /** Executables kept from before stay although the package should have none. */
  ghost predicate StaleExecutables(world: World, previous: map<string, SidecarEntry>, md: Lock, k: string)
    requires IsArchive(md, k)
  {
    !md.packages[k].hasBin && CanKeep(world, previous, md, k) && previous[k].bins != map[]
  }

  lemma NothingStaleIff(pool: Pool, md: Lock)
    requires ItemsOf(md, pool.items)
    ensures (forall i | 0 <= i < |pool.items| :: !KeepsStaleBins(pool, pool.items[i])) <==>
      forall k | IsArchive(md, k) :: !StaleExecutables(pool.world, pool.previous, md, k)
  {
    forall i | 0 <= i < |pool.items|
      ensures KeepsStaleBins(pool, pool.items[i])
          <==> StaleExecutables(pool.world, pool.previous, md, pool.items[i].key)
    {
    }
    if forall i | 0 <= i < |pool.items| :: !KeepsStaleBins(pool, pool.items[i]) {
      forall k | IsArchive(md, k)
        ensures !StaleExecutables(pool.world, pool.previous, md, k)
      {
        var i :| 0 <= i < |pool.items| && pool.items[i].key == k;
      }
    }
  }

  /**
   * Whatever the schedule, generation fails exactly on a package that cannot be derived, or on stale executables kept
   * from before.
   */
  method GeneratePnpmSha256Sidecar(source: Source, world: World, previous: map<string, SidecarEntry>, concurrency: nat,
                                   schedule: seq<Worker> -> nat)
    returns (r: Result<SidecarFile, SidecarError>, ghost pool: Pool)
    ensures pool.world == world && pool.previous == previous && ItemsOf(source.md, pool.items)
    ensures r.Success? <==>
      && concurrency > 0 && AllDerive(pool) && Complete(source.md)
      && forall i | 0 <= i < |pool.items| :: !KeepsStaleBins(pool, pool.items[i])
    ensures r.Success? <==>
      && concurrency > 0 && Complete(source.md)
      && (forall k | IsArchive(source.md, k) :: Obtainable(world, previous, source.md, k))
      && (forall k | IsArchive(source.md, k) :: !StaleExecutables(world, previous, source.md, k))
    ensures r.Success? ==> forall k | IsArchive(source.md, k) ::
      k in r.value.packages && EntryIs(world, previous, source.md, k, r.value.packages[k])
    ensures r.Success? ==> concurrency > 0 && Complete(source.md) && Valid(source, r.value)
    ensures r.Success? ==> Packages(pool, r.value.packages)
  {
    hide Reusable, AllDerive, KeepsStaleBins, Agrees, Obtainable, StaleExecutables, EntryIs, ItemsOf;
    var items := RegistryPackages(source.md);
    var the := Pool(world, previous, items);
    pool := the;
    AllDeriveIff(pool, source.md);
    NothingStaleIff(pool, source.md);
    if concurrency == 0 {
      r := Result.Failure(NoWorkers);
      return;
    }
    var packages;
    ghost var run, actors;
    packages, run, actors := RunWorkers(the, concurrency, schedule);
    if packages.Failure? {
      r := Result.Failure(PoolFailed(packages.error));
      return;
    }
    var file := SidecarFile(source.lockFingerprint, packages.value,
                            source.seal(source.lockFingerprint, packages.value));
    GeneratedIsValid(source, pool, file);
    EntriesAre(pool, source.md, file.packages);
    var error := ValidatePnpmSha256Sidecar(source, file);
    r := if error.Some? then Result.Failure(error.value) else Success(file);
  }

  lemma GeneratedIsValid(source: Source, pool: Pool, file: SidecarFile)
    requires ItemsOf(source.md, pool.items) && Packages(pool, file.packages)
    requires file.lockFingerprint == source.lockFingerprint
    requires file.fingerprint == source.seal(file.lockFingerprint, file.packages)
    ensures Valid(source, file) <==>
      Complete(source.md) && forall i | 0 <= i < |pool.items| :: !KeepsStaleBins(pool, pool.items[i])
  {
    hide Reusable, KeepsStaleBins, Agrees, Derive, DistinctKeys;
    forall i | 0 <= i < |pool.items|
      ensures Agrees(source.md, file.packages, pool.items[i].key) <==> !KeepsStaleBins(pool, pool.items[i])
    {
      DerivedAgrees(source.md, pool, file.packages, i);
    }
    assert forall k :: k in file.packages <==> IsArchive(source.md, k);
    if Valid(source, file) {
      forall i | 0 <= i < |pool.items|
        ensures Agrees(source.md, file.packages, pool.items[i].key)
      {
        assert pool.items[i].key in file.packages;
      }
    }
  }

  /** Without a previous sidecar nothing stale can be kept, so validation never fails. */
  lemma FreshNeverStale(pool: Pool, i: nat)
    requires pool.previous == map[] && i < |pool.items|
    ensures !KeepsStaleBins(pool, pool.items[i])
  {
  }

  /** Every package can be derived, and still no file with what is derived is valid. */
  ghost predicate RejectsItsOwn(source: Source, pool: Pool, packages: map<string, SidecarEntry>) {
    && ItemsOf(source.md, pool.items) && Complete(source.md) && AllDerive(pool) && Packages(pool, packages)
    && forall file: SidecarFile | file.packages == packages :: !Valid(source, file)
  }

  /** With one it can: a package the previous lockfile gave executables and this one does not makes generation fail. */
  lemma StaleBinsAreKept(world: World, key: string, cached: SidecarEntry, lockFingerprint: string,
                         seal: (string, map<string, SidecarEntry>) -> string)
    requires world.isSha256(cached.sha256) && |cached.bins| > 0
    ensures exists md, items ::
      RejectsItsOwn(Source(md, lockFingerprint, seal), Pool(world, map[key := cached], items), map[key := cached])
  {
    var package :=
      Package([], false, Some(cached.integrity), [], key, [], None, Registry, Some(key), "1", None);
    var md := Lock(map[], map[key := package], map[]);
    var source := Source(md, lockFingerprint, seal);
    var pool := Pool(world, map[key := cached], [ItemOf(md, key)]);
    assert Reusable(pool, pool.items[0]);
    forall file: SidecarFile | file.packages == map[key := cached]
      ensures !Valid(source, file)
    {
      assert !Agrees(md, file.packages, key);
    }
    assert IsArchive(md, key) && pool.items[0].key == key;
    assert RejectsItsOwn(source, pool, map[key := cached]);
  }
}
