/** The archive workers: any number of them share one cursor over the registry packages. */
module ArchivePool {
  import opened Common

  type Executables = map<string, string>

  datatype SidecarEntry = SidecarEntry(bins: Executables, integrity: string, sha256: string)

  /** A registry package with the integrity and address the lockfile gives it. */
  datatype Item = Item(key: string, name: string, hasBin: bool, integrity: string, url: string)

  /** Everything outside the generator: downloads, hashing and reading an archive's manifest. */
  datatype World = World(
    fetch: string -> Option<Bytes>,
    matches: (Bytes, string) -> bool,
    archiveBins: (Bytes, string) -> Option<Executables>,
    sha256: Bytes -> string,
    isSha256: string -> bool)

  datatype PoolError = DownloadFailed | IntegrityMismatch | BadArchive | NoBins

  /** A worker between two awaits. */
  datatype Worker =
    | Ready
    | Fetching(index: nat)
    | Unpacking(index: nat, bytes: Bytes)
    | Finished
    | Failed(index: nat, error: PoolError)

  datatype Pool = Pool(world: World, previous: map<string, SidecarEntry>, items: seq<Item>)

  datatype State = State(cursor: nat, workers: seq<Worker>, entries: seq<Option<SidecarEntry>>)

  // ----- What one package comes to, taken alone -----

  predicate Reusable(pool: Pool, item: Item) {
    && item.key in pool.previous
    && var cached := pool.previous[item.key];
       cached.integrity == item.integrity && pool.world.isSha256(cached.sha256) && (!item.hasBin || |cached.bins| > 0)
  }

  function Unpack(pool: Pool, item: Item, bytes: Bytes): Result<SidecarEntry, PoolError> {
    match pool.world.archiveBins(bytes, item.name)
    case None => Result.Failure(BadArchive)
    case Some(bins) =>
      if |bins| == 0 then Result.Failure(NoBins)
      else Success(SidecarEntry(bins, item.integrity, pool.world.sha256(bytes)))
  }

  function Derive(pool: Pool, item: Item): Result<SidecarEntry, PoolError> {
    if Reusable(pool, item) then Success(pool.previous[item.key])
    else
      match pool.world.fetch(item.url)
      case None => Result.Failure(DownloadFailed)
      case Some(bytes) =>
        if !pool.world.matches(bytes, item.integrity) then Result.Failure(IntegrityMismatch)
        else if item.hasBin then Unpack(pool, item, bytes)
        else Success(SidecarEntry(map[], item.integrity, pool.world.sha256(bytes)))
  }

  // ----- One step of one worker -----

  function Start(pool: Pool, concurrency: nat): State {
    var count := if concurrency < |pool.items| then concurrency else |pool.items|;
    State(0, seq(count, _ => Ready), seq(|pool.items|, _ => None))
  }

  function Store(s: State, w: nat, i: nat, entry: SidecarEntry): State
    requires w < |s.workers| && i < |s.entries|
  {
    s.(workers := s.workers[w := Ready], entries := s.entries[i := Some(entry)])
  }

  function Stop(s: State, w: nat, i: nat, error: PoolError): State
    requires w < |s.workers|
  {
    s.(workers := s.workers[w := Failed(i, error)])
  }

  ghost predicate InRange(pool: Pool, s: State) {
    |s.entries| == |pool.items| && forall w | 0 <= w < |s.workers| && Holding(s.workers[w]).Some? ::
      Holding(s.workers[w]).value < |pool.items|
  }

  /** The package a worker has taken and not stored. */
  function Holding(worker: Worker): Option<nat> {
    match worker
    case Ready => None
    case Fetching(i) => Some(i)
    case Unpacking(i, _) => Some(i)
    case Finished => None
    case Failed(i, _) => Some(i)
  }

  predicate Active(worker: Worker) {
    !worker.Finished? && !worker.Failed?
  }

  /** What worker w does up to its next await. Reading and advancing the cursor has no await in between. */
  function Next(pool: Pool, s: State, w: nat): State
    requires InRange(pool, s) && w < |s.workers|
  {
    match s.workers[w]
    case Ready =>
      var i := s.cursor;
      var claimed := s.(cursor := i + 1);
      if i >= |pool.items| then claimed.(workers := s.workers[w := Finished])
      else if Reusable(pool, pool.items[i]) then Store(claimed, w, i, pool.previous[pool.items[i].key])
      else claimed.(workers := s.workers[w := Fetching(i)])
    case Fetching(i) =>
      var item := pool.items[i];
      (match pool.world.fetch(item.url)
       case None => Stop(s, w, i, DownloadFailed)
       case Some(bytes) =>
         if !pool.world.matches(bytes, item.integrity) then Stop(s, w, i, IntegrityMismatch)
         else if item.hasBin then s.(workers := s.workers[w := Unpacking(i, bytes)])
         else Store(s, w, i, SidecarEntry(map[], item.integrity, pool.world.sha256(bytes))))
    case Unpacking(i, bytes) =>
      (match Unpack(pool, pool.items[i], bytes)
       case Failure(error) => Stop(s, w, i, error)
       case Success(entry) => Store(s, w, i, entry))
    case Finished => s
    case Failed(_, _) => s
  }

  // ----- What every step keeps -----

  /** A worker's own progress agrees with what its package comes to alone. */
  ghost predicate OnTrack(pool: Pool, worker: Worker) {
    match worker
    case Ready => true
    case Finished => true
    case Fetching(i) => i < |pool.items| && !Reusable(pool, pool.items[i])
    case Unpacking(i, bytes) => i < |pool.items| && Derive(pool, pool.items[i]) == Unpack(pool, pool.items[i], bytes)
    case Failed(i, error) => i < |pool.items| && Derive(pool, pool.items[i]) == Result.Failure(error)
  }

  ghost predicate Inv(pool: Pool, s: State) {
    && InRange(pool, s)
    && (forall w | 0 <= w < |s.workers| :: OnTrack(pool, s.workers[w]))
    && (forall w | 0 <= w < |s.workers| && Holding(s.workers[w]).Some? ::
          Holding(s.workers[w]).value < s.cursor && s.entries[Holding(s.workers[w]).value].None?)
    && (forall v, w | 0 <= v < w < |s.workers| && Holding(s.workers[v]).Some? ::
          Holding(s.workers[v]) != Holding(s.workers[w]))
    && (forall i | 0 <= i < |s.entries| && s.entries[i].Some? ::
          i < s.cursor && Derive(pool, pool.items[i]) == Success(s.entries[i].value))
    && (forall i | 0 <= i < |s.entries| && i < s.cursor :: s.entries[i].Some? || IsHeld(s, i))
    && (forall w | 0 <= w < |s.workers| && s.workers[w].Finished? :: s.cursor >= |pool.items|)
  }

  ghost predicate IsHeld(s: State, i: nat) {
    exists w :: 0 <= w < |s.workers| && Holding(s.workers[w]) == Some(i)
  }

  lemma StartIsInv(pool: Pool, concurrency: nat)
    ensures Inv(pool, Start(pool, concurrency))
  {
  }

  /** Taking the next package. */
  lemma ClaimKeepsInv(pool: Pool, s: State, w: nat)
    requires Inv(pool, s) && w < |s.workers| && s.workers[w].Ready?
    ensures Inv(pool, Next(pool, s, w))
  {
    hide Unpack;
    var t := Next(pool, s, w);
    forall i | 0 <= i < |t.entries| && i < t.cursor
      ensures t.entries[i].Some? || IsHeld(t, i)
    {
      if i == s.cursor {
        assert t.entries[i].Some? || Holding(t.workers[w]) == Some(i);
      } else if s.entries[i].None? {
        var v :| 0 <= v < |s.workers| && Holding(s.workers[v]) == Some(i);
        assert Holding(t.workers[v]) == Some(i);
      }
    }
  }

  lemma StoreKeepsInv(pool: Pool, s: State, w: nat, i: nat, entry: SidecarEntry)
    requires Inv(pool, s) && w < |s.workers| && Holding(s.workers[w]) == Some(i)
    requires i < |pool.items| && Derive(pool, pool.items[i]) == Success(entry)
    ensures Inv(pool, Store(s, w, i, entry))
  {
    hide Derive, Reusable;
    var t := Store(s, w, i, entry);
    forall j | 0 <= j < |t.entries| && j < t.cursor
      ensures t.entries[j].Some? || IsHeld(t, j)
    {
      if t.entries[j].None? {
        var v :| 0 <= v < |s.workers| && Holding(s.workers[v]) == Some(j);
        assert Holding(t.workers[v]) == Some(j);
      }
    }
  }

  lemma ChangeKeepsInv(pool: Pool, s: State, w: nat, worker: Worker)
    requires Inv(pool, s) && w < |s.workers|
    requires Holding(worker).Some? && Holding(worker) == Holding(s.workers[w]) && OnTrack(pool, worker)
    ensures Inv(pool, s.(workers := s.workers[w := worker]))
  {
    hide Derive, Reusable;
    var t := s.(workers := s.workers[w := worker]);
    forall v | 0 <= v < |t.workers| ensures Holding(t.workers[v]) == Holding(s.workers[v]) {}
    forall j | 0 <= j < |t.entries| && j < t.cursor
      ensures t.entries[j].Some? || IsHeld(t, j)
    {
      if t.entries[j].None? {
        var v :| 0 <= v < |s.workers| && Holding(s.workers[v]) == Some(j);
        assert Holding(t.workers[v]) == Some(j);
      }
    }
  }

  lemma InvOnTrack(pool: Pool, s: State, w: nat)
    requires Inv(pool, s) && w < |s.workers|
    ensures OnTrack(pool, s.workers[w])
  {
  }

  /** Going on with a package already taken. */
  lemma WorkKeepsInv(pool: Pool, s: State, w: nat)
    requires Inv(pool, s) && w < |s.workers| && !s.workers[w].Ready?
    ensures Inv(pool, Next(pool, s, w))
  {
    hide Inv, Unpack;
    InvInRange(pool, s);
    InvOnTrack(pool, s, w);
    match s.workers[w]
    case Fetching(i) =>
      var item := pool.items[i];
      var fetched := pool.world.fetch(item.url);
      if fetched.None? {
        ChangeKeepsInv(pool, s, w, Failed(i, DownloadFailed));
      } else if !pool.world.matches(fetched.value, item.integrity) {
        ChangeKeepsInv(pool, s, w, Failed(i, IntegrityMismatch));
      } else if item.hasBin {
        ChangeKeepsInv(pool, s, w, Unpacking(i, fetched.value));
      } else {
        StoreKeepsInv(pool, s, w, i, SidecarEntry(map[], item.integrity, pool.world.sha256(fetched.value)));
      }
    case Unpacking(i, bytes) =>
      var unpacked := Unpack(pool, pool.items[i], bytes);
      if unpacked.Failure? {
        ChangeKeepsInv(pool, s, w, Failed(i, unpacked.error));
      } else {
        StoreKeepsInv(pool, s, w, i, unpacked.value);
      }
    case Finished =>
    case Failed(_, _) =>
  }

  lemma StepKeepsInv(pool: Pool, s: State, w: nat)
    requires Inv(pool, s) && w < |s.workers|
    ensures Inv(pool, Next(pool, s, w))
  {
    hide Inv;
    assert InRange(pool, s) by { InvInRange(pool, s); }
    if s.workers[w].Ready? { ClaimKeepsInv(pool, s, w); } else { WorkKeepsInv(pool, s, w); }
  }

  lemma InvInRange(pool: Pool, s: State)
    requires Inv(pool, s)
    ensures InRange(pool, s)
  {
  }

  // ----- Runs -----

  /** Any interleaving: each step is some worker's, in any order. */
  ghost predicate IsRun(pool: Pool, concurrency: nat, run: seq<State>, actors: seq<nat>) {
    && |run| == |actors| + 1 && run[0] == Start(pool, concurrency)
    && (forall k | 0 <= k < |actors| :: IsStep(pool, run[k], actors[k], run[k + 1]))
  }

  ghost predicate IsStep(pool: Pool, s: State, w: nat, t: State) {
    InRange(pool, s) && w < |s.workers| && Active(s.workers[w]) && t == Next(pool, s, w)
  }

  lemma {:induction false} RunKeepsInv(pool: Pool, concurrency: nat, run: seq<State>, actors: seq<nat>, k: nat)
    requires IsRun(pool, concurrency, run, actors) && k < |run|
    ensures Inv(pool, run[k]) && |run[k].workers| == |run[0].workers|
  {
    hide Inv, Next;
    if k == 0 {
      StartIsInv(pool, concurrency);
    } else {
      RunKeepsInv(pool, concurrency, run, actors, k - 1);
      assert IsStep(pool, run[k - 1], actors[k - 1], run[k]);
      StepKeepsInv(pool, run[k - 1], actors[k - 1]);
      SameWorkers(pool, run[k - 1], actors[k - 1]);
    }
  }

  lemma SameWorkers(pool: Pool, s: State, w: nat)
    requires InRange(pool, s) && w < |s.workers|
    ensures |Next(pool, s, w).workers| == |s.workers|
  {
  }

  /** The step in which worker w takes package i. */
  ghost predicate Claims(pool: Pool, s: State, w: nat, i: nat) {
    w < |s.workers| && s.workers[w].Ready? && s.cursor == i && i < |pool.items|
  }

  lemma {:induction false} CursorOnlyGrows(pool: Pool, concurrency: nat, run: seq<State>, actors: seq<nat>, j: nat,
                                           k: nat)
    requires IsRun(pool, concurrency, run, actors) && j <= k < |run|
    ensures run[j].cursor <= run[k].cursor
    decreases k
  {
    if j < k {
      CursorOnlyGrows(pool, concurrency, run, actors, j, k - 1);
      assert IsStep(pool, run[k - 1], actors[k - 1], run[k]);
    }
  }

  lemma {:induction false} ClaimedBefore(pool: Pool, concurrency: nat, run: seq<State>, actors: seq<nat>, k: nat,
                                         i: nat)
    requires IsRun(pool, concurrency, run, actors) && k < |run| && i < run[k].cursor && i < |pool.items|
    ensures exists j :: 0 <= j < k && Claims(pool, run[j], actors[j], i)
  {
    assert k > 0;
    assert IsStep(pool, run[k - 1], actors[k - 1], run[k]);
    if i < run[k - 1].cursor {
      ClaimedBefore(pool, concurrency, run, actors, k - 1, i);
    } else {
      assert Claims(pool, run[k - 1], actors[k - 1], i);
    }
  }

  /** In any interleaving each package the cursor has passed was taken in exactly one step, by one worker. */
  lemma EachClaimedOnce(pool: Pool, concurrency: nat, run: seq<State>, actors: seq<nat>, i: nat)
    requires IsRun(pool, concurrency, run, actors) && i < |pool.items|
    ensures i < run[|run| - 1].cursor <==> exists k :: 0 <= k < |actors| && Claims(pool, run[k], actors[k], i)
    ensures forall j, k | 0 <= j < k < |actors| && Claims(pool, run[j], actors[j], i) ::
      !Claims(pool, run[k], actors[k], i)
  {
    hide Claims;
    forall k | 0 <= k < |actors| && Claims(pool, run[k], actors[k], i)
      ensures run[k].cursor == i && run[k + 1].cursor == i + 1
    {
      ClaimAdvances(pool, run[k], actors[k], i);
      assert IsStep(pool, run[k], actors[k], run[k + 1]);
    }
    if k :| 0 <= k < |actors| && Claims(pool, run[k], actors[k], i) {
      CursorOnlyGrows(pool, concurrency, run, actors, k + 1, |run| - 1);
    }
    forall j, k | 0 <= j < k < |actors| && Claims(pool, run[j], actors[j], i)
      ensures !Claims(pool, run[k], actors[k], i)
    {
      CursorOnlyGrows(pool, concurrency, run, actors, j + 1, k);
    }
    if i < run[|run| - 1].cursor {
      ClaimedBefore(pool, concurrency, run, actors, |run| - 1, i);
    }
  }

  lemma ClaimAdvances(pool: Pool, s: State, w: nat, i: nat)
    requires Claims(pool, s, w, i)
    ensures s.cursor == i && (InRange(pool, s) ==> Next(pool, s, w).cursor == i + 1)
  {
  }

  // ----- Termination -----

  function Remaining(worker: Worker): nat {
    match worker
    case Ready => 1
    case Fetching(_) => 3
    case Unpacking(_, _) => 2
    case Finished => 0
    case Failed(_, _) => 0
  }

  function Total(workers: seq<Worker>): nat {
    if workers == [] then 0 else Remaining(workers[0]) + Total(workers[1..])
  }

  function Measure(pool: Pool, s: State): nat {
    3 * (if s.cursor < |pool.items| then |pool.items| - s.cursor else 0) + Total(s.workers)
  }

  lemma {:induction false} TotalUpdate(workers: seq<Worker>, w: nat, worker: Worker)
    requires w < |workers|
    ensures Total(workers[w := worker]) == Total(workers) - Remaining(workers[w]) + Remaining(worker)
  {
    if w == 0 {
      assert workers[w := worker][1..] == workers[1..];
    } else {
      assert workers[w := worker][1..] == workers[1..][w - 1 := worker];
      TotalUpdate(workers[1..], w - 1, worker);
    }
  }

  /** Every step of an active worker uses something up. */
  lemma StepUsesUp(pool: Pool, s: State, w: nat)
    requires InRange(pool, s) && w < |s.workers| && Active(s.workers[w])
    ensures Measure(pool, Next(pool, s, w)) < Measure(pool, s)
  {
    hide Total, Reusable, Unpack;
    var t := Next(pool, s, w);
    assert t.workers == s.workers[w := t.workers[w]];
    TotalUpdate(s.workers, w, t.workers[w]);
  }

  lemma {:induction false} ReadyTotal(n: nat)
    ensures Total(seq(n, _ => Ready)) == n
  {
    if n > 0 {
      assert seq(n, _ => Ready)[1..] == seq(n - 1, _ => Ready);
      ReadyTotal(n - 1);
    }
  }

  lemma {:induction false} RunShrinks(pool: Pool, concurrency: nat, run: seq<State>, actors: seq<nat>, k: nat)
    requires IsRun(pool, concurrency, run, actors) && k < |run|
    ensures Measure(pool, run[k]) + k <= Measure(pool, run[0])
  {
    hide Measure, Next, Start;
    if k > 0 {
      RunShrinks(pool, concurrency, run, actors, k - 1);
      assert IsStep(pool, run[k - 1], actors[k - 1], run[k]);
      StepUsesUp(pool, run[k - 1], actors[k - 1]);
    }
  }

  /** No interleaving takes more than three steps a package and one a worker. */
  lemma RunsAreShort(pool: Pool, concurrency: nat, run: seq<State>, actors: seq<nat>)
    requires IsRun(pool, concurrency, run, actors)
    ensures |actors| <= 3 * |pool.items| + (if concurrency < |pool.items| then concurrency else |pool.items|)
  {
    RunShrinks(pool, concurrency, run, actors, |actors|);
    ReadyTotal(if concurrency < |pool.items| then concurrency else |pool.items|);
  }

  // ----- Where runs end -----

  ghost predicate Settled(s: State) {
    forall w | 0 <= w < |s.workers| :: !Active(s.workers[w])
  }

  ghost predicate AllFinished(s: State) {
    forall w | 0 <= w < |s.workers| :: s.workers[w].Finished?
  }

  ghost predicate AllDerive(pool: Pool) {
    forall i | 0 <= i < |pool.items| :: Derive(pool, pool.items[i]).Success?
  }

  /** When all workers have finished, no slot is empty and each holds what its package comes to alone. */
  lemma FinishedIsFull(pool: Pool, concurrency: nat, s: State)
    requires Inv(pool, s) && AllFinished(s) && concurrency > 0
    requires |s.workers| == if concurrency < |pool.items| then concurrency else |pool.items|
    ensures forall i | 0 <= i < |pool.items| ::
      s.entries[i].Some? && Derive(pool, pool.items[i]) == Success(s.entries[i].value)
  {
    hide Derive, Reusable;
    if |pool.items| > 0 {
      assert s.workers[0].Finished?;
    }
    forall i | 0 <= i < |pool.items|
      ensures s.entries[i].Some?
    {
      assert s.entries[i].Some? || IsHeld(s, i);
    }
  }

  /**
   * A run that has settled finished everywhere exactly when every package can be derived, whatever the interleaving.
   */
  lemma SettledFinishedIff(pool: Pool, concurrency: nat, s: State)
    requires Inv(pool, s) && Settled(s) && concurrency > 0
    requires |s.workers| == if concurrency < |pool.items| then concurrency else |pool.items|
    ensures AllFinished(s) <==> AllDerive(pool)
  {
    hide Derive, Reusable;
    if AllFinished(s) {
      FinishedIsFull(pool, concurrency, s);
    } else {
      var w :| 0 <= w < |s.workers| && !s.workers[w].Finished?;
      assert OnTrack(pool, s.workers[w]) && !Active(s.workers[w]);
    }
  }

  ghost predicate Packages(pool: Pool, packages: map<string, SidecarEntry>) {
    && (forall k :: k in packages <==> exists i :: 0 <= i < |pool.items| && pool.items[i].key == k)
    && (forall i | 0 <= i < |pool.items| :: pool.items[i].key in packages
          && Derive(pool, pool.items[i]) == Success(packages[pool.items[i].key]))
  }

  ghost predicate DistinctKeys(items: seq<Item>) {
    forall i, j | 0 <= i < j < |items| :: items[i].key != items[j].key
  }

  /** Runs the workers under any schedule; the outcome is that of deriving the packages one after another. */
  method RunWorkers(pool: Pool, concurrency: nat, schedule: seq<Worker> -> nat)
    returns (r: Result<map<string, SidecarEntry>, PoolError>, ghost run: seq<State>, ghost actors: seq<nat>)
    requires concurrency > 0 && DistinctKeys(pool.items)
    ensures IsRun(pool, concurrency, run, actors)
    ensures r.Success? <==> AllDerive(pool)
    ensures r.Success? ==> Packages(pool, r.value)
    ensures r.Failure? ==> exists i :: 0 <= i < |pool.items| && Derive(pool, pool.items[i]) == Result.Failure(r.error)
  {
    hide Inv, Next, Derive, Reusable, Start, Measure;
    var s := Start(pool, concurrency);
    StartIsInv(pool, concurrency);
    run, actors := [s], [];
    WorkerCount(pool, concurrency);
    var active: Option<nat> := FirstActive(s.workers);
    while active.Some?
      invariant Inv(pool, s) && InRange(pool, s) && |s.workers| == |Start(pool, concurrency).workers|
      invariant IsRun(pool, concurrency, run, actors) && run[|run| - 1] == s
      invariant active.Some? ==> active.value < |s.workers| && Active(s.workers[active.value])
      invariant active.None? ==> Settled(s)
      decreases Measure(pool, s)
    {
      var w: nat := schedule(s.workers);
      if w >= |s.workers| || !Active(s.workers[w]) {
        w := active.value;
      }
      StepKeepsInv(pool, s, w);
      StepUsesUp(pool, s, w);
      SameWorkers(pool, s, w);
      var t := Next(pool, s, w);
      InvInRange(pool, t);
      RunOn(pool, concurrency, run, actors, w);
      run, actors := run + [t], actors + [w];
      s := t;
      active := FirstActive(s.workers);
    }
    SettledFinishedIff(pool, concurrency, s);
    var failed: Option<nat> := FirstFailure(s.workers);
    if failed.Some? {
      FailureIsReal(pool, s, failed.value);
      return Result.Failure(s.workers[failed.value].error), run, actors;
    }
    FinishedIsFull(pool, concurrency, s);
    var packages := Collect(pool, s.entries);
    r := Success(packages);
  }

  method FirstActive(workers: seq<Worker>) returns (w: Option<nat>)
    ensures w.Some? ==> w.value < |workers| && Active(workers[w.value])
    ensures w.None? ==> forall v | 0 <= v < |workers| :: !Active(workers[v])
  {
    for i := 0 to |workers|
      invariant forall v | 0 <= v < i :: !Active(workers[v])
    {
      if Active(workers[i]) { return Some(i); }
    }
    return None;
  }

  method FirstFailure(workers: seq<Worker>) returns (w: Option<nat>)
    ensures w.Some? ==> w.value < |workers| && workers[w.value].Failed?
    ensures w.None? ==> forall v | 0 <= v < |workers| :: !workers[v].Failed?
  {
    for i := 0 to |workers|
      invariant forall v | 0 <= v < i :: !workers[v].Failed?
    {
      if workers[i].Failed? { return Some(i); }
    }
    return None;
  }

  method Collect(pool: Pool, entries: seq<Option<SidecarEntry>>) returns (packages: map<string, SidecarEntry>)
    requires DistinctKeys(pool.items) && |entries| == |pool.items|
    requires forall i | 0 <= i < |pool.items| ::
      entries[i].Some? && Derive(pool, pool.items[i]) == Success(entries[i].value)
    ensures Packages(pool, packages)
  {
    hide Derive;
    packages := map[];
    for i := 0 to |entries|
      invariant forall k :: k in packages <==> exists j :: 0 <= j < i && pool.items[j].key == k
      invariant forall j | 0 <= j < i ::
        pool.items[j].key in packages && packages[pool.items[j].key] == entries[j].value
    {
      packages := packages[pool.items[i].key := entries[i].value];
    }
  }

  lemma WorkerCount(pool: Pool, concurrency: nat)
    ensures |Start(pool, concurrency).workers| == if concurrency < |pool.items| then concurrency else |pool.items|
    ensures InRange(pool, Start(pool, concurrency)) && IsRun(pool, concurrency, [Start(pool, concurrency)], [])
  {
  }

  lemma RunOn(pool: Pool, concurrency: nat, run: seq<State>, actors: seq<nat>, w: nat)
    requires IsRun(pool, concurrency, run, actors) && InRange(pool, run[|run| - 1])
    requires w < |run[|run| - 1].workers| && Active(run[|run| - 1].workers[w])
    ensures IsRun(pool, concurrency, run + [Next(pool, run[|run| - 1], w)], actors + [w])
  {
    hide Next, Start;
  }

  lemma FailureIsReal(pool: Pool, s: State, w: nat)
    requires Inv(pool, s) && w < |s.workers| && s.workers[w].Failed?
    ensures exists i :: 0 <= i < |pool.items| && Derive(pool, pool.items[i]) == Result.Failure(s.workers[w].error)
    ensures !AllFinished(s)
  {
    hide Derive;
    assert OnTrack(pool, s.workers[w]);
  }
}
