/** Publishing one package cohort to an append-only registry: attempts, crashes, stale reads and receipts. */
module SnapshotPublish {
  import opened Common

  /** A tarball by the two digests the workflow compares. */
  datatype Tarball = Tarball(sha1: string, sha512: string)

  datatype Listed = Listed(name: string, tarball: Tarball)

  /** What one attempt wants in the registry under its version. */
  datatype Candidate = Candidate(version: string, list: seq<Listed>, packageCount: nat)

  /** Where an attempt stands between two registry calls. */
  datatype Phase =
    | Viewing(i: nat)
    | Sending(i: nat)
    | Checking(i: nat, tries: nat, verified: nat)
    | Verified
    | Receipted
    | Concluded
    | Stopped

  datatype Attempt = Attempt(candidate: Candidate, phase: Phase)

  /** The registry holds one tarball per package under the cohort's version; written lists the writes in order. */
  datatype State = State(
    registry: map<string, Tarball>,
    tags: map<string, string>,
    written: seq<string>,
    attempts: seq<Attempt>,
    receipts: seq<Candidate>)

  /** One call of one attempt, with what the registry answers. */
  datatype Call =
    | View(sha1: Option<string>, tag: Option<string>)
    | Send(landed: bool, ok: bool)
    | Compare(found: bool, sha512: Option<string>, tag: Option<string>)
    | WriteReceipt
    | Conclude
    | Crash

  const TRIES := 12

  // ----- The workflow's steps -----

  /** After the publish loop has dealt with all packages before i. */
  function Published(c: Candidate, i: nat): Phase {
    if i < |c.list| then Viewing(i) else Checked(c, 0, 0)
  }

  /** After the verify loop has dealt with all packages before i. */
  function Checked(c: Candidate, i: nat, verified: nat): Phase {
    if i < |c.list| then Checking(i, 0, verified)
    else if verified == c.packageCount then Verified
    else Stopped
  }

  predicate TagConflicts(c: Candidate, tag: Option<string>) {
    tag.Some? && tag.value != "" && tag.value != c.version
  }

  /** The answers the registry may give: a version read is right or absent, a tag read is anything. */
  predicate MayAnswer(s: State, a: Attempt, call: Call) {
    match call
    case View(sha1, tag) =>
      && a.phase.Viewing? && a.phase.i < |a.candidate.list|
      && var name := a.candidate.list[a.phase.i].name;
         sha1.Some? ==> name in s.registry && sha1.value == s.registry[name].sha1
    case Send(landed, ok) =>
      && a.phase.Sending? && a.phase.i < |a.candidate.list|
      && (landed ==> a.candidate.list[a.phase.i].name !in s.registry) && (ok ==> landed)
    case Compare(found, sha512, tag) =>
      && a.phase.Checking? && a.phase.i < |a.candidate.list|
      && var name := a.candidate.list[a.phase.i].name;
         && (found ==> name in s.registry)
         && (sha512.Some? ==> name in s.registry && sha512.value == s.registry[name].sha512)
    case WriteReceipt => a.phase.Verified?
    case Conclude => a.phase.Receipted?
    case Crash => true
  }

  function PhaseAfter(s: State, a: Attempt, call: Call): Phase
    requires MayAnswer(s, a, call)
  {
    var c := a.candidate;
    match call
    case View(sha1, tag) =>
      var listed := c.list[a.phase.i];
      if listed.name == "" then Stopped
      else if sha1.None? then Sending(a.phase.i)
      else if sha1.value != listed.tarball.sha1 then Stopped
      else if TagConflicts(c, tag) then Stopped
      else Published(c, a.phase.i + 1)
    case Send(_, ok) => if ok then Published(c, a.phase.i + 1) else Stopped
    case Compare(found, sha512, tag) =>
      if TagConflicts(c, tag) then Stopped
      else if found && sha512 == Some(c.list[a.phase.i].tarball.sha512)
        then Checked(c, a.phase.i + 1, a.phase.verified + 1)
      else if a.phase.tries + 1 < TRIES then Checking(a.phase.i, a.phase.tries + 1, a.phase.verified)
      else Stopped
    case WriteReceipt => Receipted
    case Conclude => Concluded
    case Crash => Stopped
  }

  function After(s: State, n: nat, call: Call): State
    requires n < |s.attempts| && MayAnswer(s, s.attempts[n], call)
  {
    var a := s.attempts[n];
    var moved := s.(attempts := s.attempts[n := a.(phase := PhaseAfter(s, a, call))]);
    if call.Send? && call.landed then
      var listed := a.candidate.list[a.phase.i];
      moved.(registry := s.registry[listed.name := listed.tarball], tags := s.tags[listed.name := a.candidate.version],
      written := s.written + [listed.name])
    else if call.WriteReceipt? then moved.(receipts := s.receipts + [a.candidate])
    else moved
  }

  // ----- Runs -----

  /** Some attempt makes a call, a new attempt begins with any candidate, or somebody moves a tag. */
  ghost predicate Moves(s: State, t: State) {
    || (exists n, call :: 0 <= n < |s.attempts| && MayAnswer(s, s.attempts[n], call) && t == After(s, n, call))
    || (exists c :: t == s.(attempts := s.attempts + [Attempt(c, Published(c, 0))]))
    || (exists tags :: t == s.(tags := tags))
  }

  ghost predicate IsRun(run: seq<State>) {
    && |run| > 0 && run[0] == State(map[], run[0].tags, [], [], [])
    && forall j, k | 0 <= j < k < |run| && k == j + 1 :: Moves(run[j], run[k])
  }

  /** The registry has the listed package with exactly this integrity. */
  ghost predicate InRegistry(s: State, listed: Listed) {
    listed.name in s.registry && s.registry[listed.name].sha512 == listed.tarball.sha512
  }

  ghost predicate Holds(s: State, c: Candidate) {
    && |c.list| == c.packageCount
    && forall i | 0 <= i < |c.list| :: InRegistry(s, c.list[i])
  }

  ghost predicate PhaseHolds(s: State, a: Attempt) {
    match a.phase
    case Checking(i, _, verified) =>
      && i < |a.candidate.list| && verified == i
      && forall j | 0 <= j < i :: InRegistry(s, a.candidate.list[j])
    case Verified => Holds(s, a.candidate)
    case Receipted => Holds(s, a.candidate) && a.candidate in s.receipts
    case Concluded => Holds(s, a.candidate) && a.candidate in s.receipts
    case _ => true
  }

  ghost predicate WrittenOnce(s: State) {
    && Distinct(s.written)
    && (forall name :: name in s.written <==> name in s.registry)
  }

  ghost predicate Inv(s: State) {
    && WrittenOnce(s)
    && (forall n | 0 <= n < |s.attempts| :: PhaseHolds(s, s.attempts[n]))
    && (forall k | 0 <= k < |s.receipts| :: Holds(s, s.receipts[k]))
  }

  /** The registry never loses or changes a tarball, and receipts stay. */
  ghost predicate Grows(s: State, t: State) {
    && (forall name | name in s.registry :: name in t.registry && t.registry[name] == s.registry[name])
    && s.receipts <= t.receipts && s.written <= t.written
  }

  lemma CallGrows(s: State, n: nat, call: Call)
    requires n < |s.attempts| && MayAnswer(s, s.attempts[n], call)
    ensures Grows(s, After(s, n, call))
  {
  }

  lemma MoveGrows(s: State, t: State)
    requires Moves(s, t)
    ensures Grows(s, t)
  {
    hide MayAnswer, After, PhaseAfter, Published;
    if n, call :| 0 <= n < |s.attempts| && MayAnswer(s, s.attempts[n], call) && t == After(s, n, call) {
      CallGrows(s, n, call);
    }
  }

  lemma HoldsStays(s: State, t: State, c: Candidate)
    requires Grows(s, t) && Holds(s, c)
    ensures Holds(t, c)
  {
  }

  lemma PhaseStays(s: State, t: State, a: Attempt)
    requires Grows(s, t) && PhaseHolds(s, a)
    ensures PhaseHolds(t, a)
  {
    if a.candidate in s.receipts { assert a.candidate in t.receipts; }
  }

  lemma CallKeepsPhase(s: State, n: nat, call: Call)
    requires n < |s.attempts| && MayAnswer(s, s.attempts[n], call) && PhaseHolds(s, s.attempts[n])
    ensures PhaseHolds(After(s, n, call), After(s, n, call).attempts[n])
  {
    var a, t := s.attempts[n], After(s, n, call);
    if call.Compare? && t.attempts[n].phase != Stopped && !t.attempts[n].phase.Checking? {
      assert forall j | 0 <= j < |a.candidate.list| :: InRegistry(t, a.candidate.list[j]);
    }
  }

  lemma CallKeepsWritten(s: State, n: nat, call: Call)
    requires n < |s.attempts| && MayAnswer(s, s.attempts[n], call) && WrittenOnce(s)
    ensures WrittenOnce(After(s, n, call))
  {
    hide PhaseAfter;
    var t := After(s, n, call);
    if call.Send? && call.landed {
      assert forall i | 0 <= i < |s.written| :: s.written[i] in s.written;
    }
  }

  lemma CallKeepsInv(s: State, n: nat, call: Call)
    requires n < |s.attempts| && MayAnswer(s, s.attempts[n], call) && Inv(s)
    ensures Inv(After(s, n, call))
  {
    hide MayAnswer, Holds, PhaseHolds, WrittenOnce, Grows, PhaseAfter;
    var t := After(s, n, call);
    CallGrows(s, n, call);
    CallKeepsWritten(s, n, call);
    CallKeepsPhase(s, n, call);
    forall m | 0 <= m < |t.attempts|
      ensures PhaseHolds(t, t.attempts[m])
    {
      if m != n { PhaseStays(s, t, s.attempts[m]); }
    }
    forall k | 0 <= k < |t.receipts|
      ensures Holds(t, t.receipts[k])
    {
      if k < |s.receipts| {
        HoldsStays(s, t, s.receipts[k]);
      } else {
        ReceiptHolds(s, s.attempts[n], call);
        HoldsStays(s, t, s.attempts[n].candidate);
      }
    }
  }

  lemma ReceiptHolds(s: State, a: Attempt, call: Call)
    requires call.WriteReceipt? && MayAnswer(s, a, call) && PhaseHolds(s, a)
    ensures Holds(s, a.candidate)
  {
  }

  lemma MoveKeepsInv(s: State, t: State)
    requires Inv(s) && Moves(s, t)
    ensures Inv(t)
  {
    hide MayAnswer, After, Holds, PhaseHolds, WrittenOnce, Grows;
    MoveGrows(s, t);
    if n, call :| 0 <= n < |s.attempts| && MayAnswer(s, s.attempts[n], call) && t == After(s, n, call) {
      CallKeepsInv(s, n, call);
    } else {
      OtherMovesKeep(s, t);
    }
  }

  lemma OtherMovesKeep(s: State, t: State)
    requires Inv(s) && Grows(s, t) && t.written == s.written && t.registry == s.registry && t.receipts == s.receipts
    requires t.attempts == s.attempts || exists c :: t.attempts == s.attempts + [Attempt(c, Published(c, 0))]
    ensures Inv(t)
  {
    hide Holds, Grows;
    forall k | 0 <= k < |t.receipts| ensures Holds(t, t.receipts[k]) { HoldsStays(s, t, s.receipts[k]); }
    forall n | 0 <= n < |t.attempts|
      ensures PhaseHolds(t, t.attempts[n])
    {
      if n < |s.attempts| {
        PhaseStays(s, t, s.attempts[n]);
      } else {
        NothingToHold(t, t.attempts[n].candidate);
      }
    }
  }

  lemma NothingToHold(s: State, c: Candidate)
    ensures PhaseHolds(s, Attempt(c, Published(c, 0)))
  {
  }

  lemma {:induction false} RunKeepsInv(run: seq<State>, k: nat)
    requires IsRun(run) && k < |run|
    ensures Inv(run[k])
  {
    hide Moves;
    if k > 0 {
      RunKeepsInv(run, k - 1);
      MoveKeepsInv(run[k - 1], run[k]);
    }
  }

  lemma {:induction false} RunGrows(run: seq<State>, j: nat, k: nat)
    requires IsRun(run) && j <= k < |run|
    ensures Grows(run[j], run[k])
    decreases k
  {
    hide Moves;
    if j < k {
      RunGrows(run, j, k - 1);
      MoveGrows(run[k - 1], run[k]);
    }
  }

  /** Over any run each package is written at most once, and what is written never changes. */
  lemma WrittenAtMostOnce(run: seq<State>, k: nat, name: string)
    requires IsRun(run) && k < |run|
    ensures multiset(run[k].written)[name] == if name in run[k].registry then 1 else 0
    ensures forall m | k <= m < |run| && name in run[k].registry ::
      name in run[m].registry && run[m].registry[name] == run[k].registry[name]
  {
    RunKeepsInv(run, k);
    CountedOnce(run[k].written, name);
    forall m | k <= m < |run| && name in run[k].registry
      ensures name in run[m].registry && run[m].registry[name] == run[k].registry[name]
    {
      RunGrows(run, k, m);
    }
  }

  /** A receipt is written only for a cohort that is wholly in the registry with its integrities, and it stays there. */
  lemma ReceiptMeansPublished(run: seq<State>, k: nat, m: nat, c: Candidate)
    requires IsRun(run) && k <= m < |run| && c in run[k].receipts
    ensures Holds(run[m], c)
  {
    RunKeepsInv(run, k);
    RunGrows(run, k, m);
    var i :| 0 <= i < |run[k].receipts| && run[k].receipts[i] == c;
    HoldsStays(run[k], run[m], c);
  }

  /** What the dispatcher takes for done: a receipt of an attempt whose run concluded. */
  ghost predicate SeenComplete(s: State, c: Candidate) {
    exists n :: 0 <= n < |s.attempts| && s.attempts[n].candidate == c && s.attempts[n].phase == Concluded
  }

  lemma SeenCompleteIsPublished(run: seq<State>, k: nat, m: nat, c: Candidate)
    requires IsRun(run) && k <= m < |run| && SeenComplete(run[k], c)
    ensures c in run[k].receipts && Holds(run[m], c)
  {
    RunKeepsInv(run, k);
    var n :| 0 <= n < |run[k].attempts| && run[k].attempts[n].candidate == c && run[k].attempts[n].phase == Concluded;
    assert PhaseHolds(run[k], run[k].attempts[n]);
    ReceiptMeansPublished(run, k, m, c);
  }

  /** Two cohorts of one version that both have receipts agree on every package they share. */
  lemma ReceiptsAgree(run: seq<State>, k: nat, c: Candidate, d: Candidate, i: nat, j: nat)
    requires IsRun(run) && k < |run| && c in run[k].receipts && d in run[k].receipts
    requires i < |c.list| && j < |d.list| && c.list[i].name == d.list[j].name
    ensures c.list[i].tarball.sha512 == d.list[j].tarball.sha512
  {
    ReceiptMeansPublished(run, k, k, c);
    ReceiptMeansPublished(run, k, k, d);
    assert InRegistry(run[k], c.list[i]) && InRegistry(run[k], d.list[j]);
  }

  // ----- Tags -----

  /** A read of a package the attempt finds in the registry, or checks, shows another version under its tag. */
  ghost predicate ReadsOtherTag(a: Attempt, call: Call) {
    match call
    case View(sha1, tag) => sha1.Some? && tag.Some? && tag.value != "" && tag.value != a.candidate.version
    case Compare(_, _, tag) => tag.Some? && tag.value != "" && tag.value != a.candidate.version
    case _ => false
  }

  lemma OtherTagStops(s: State, n: nat, call: Call)
    requires n < |s.attempts| && MayAnswer(s, s.attempts[n], call) && ReadsOtherTag(s.attempts[n], call)
    ensures After(s, n, call).attempts[n].phase == Stopped
  {
  }

  lemma StoppedStays(s: State, t: State, n: nat)
    requires Moves(s, t) && n < |s.attempts| && s.attempts[n].phase == Stopped
    ensures n < |t.attempts| && t.attempts[n].phase == Stopped
  {
  }

  /** An attempt that has read another version's tag is stopped for good, so it never writes a receipt after that. */
  lemma {:induction false} OtherTagIsFinal(run: seq<State>, k: nat, n: nat, call: Call, m: nat)
    requires IsRun(run) && k < m < |run| && n < |run[k].attempts| && MayAnswer(run[k], run[k].attempts[n], call)
    requires run[k + 1] == After(run[k], n, call) && ReadsOtherTag(run[k].attempts[n], call)
    ensures n < |run[m].attempts| && run[m].attempts[n].phase == Stopped
    decreases m
  {
    hide Moves, After, MayAnswer, ReadsOtherTag;
    if m == k + 1 {
      OtherTagStops(run[k], n, call);
      SameCount(run[k], n, call);
    } else {
      OtherTagIsFinal(run, k, n, call, m - 1);
      StoppedStays(run[m - 1], run[m], n);
    }
  }

  lemma SameCount(s: State, n: nat, call: Call)
    requires n < |s.attempts| && MayAnswer(s, s.attempts[n], call)
    ensures |After(s, n, call).attempts| == |s.attempts|
  {
  }

  // ----- An attempt left alone -----

  function TagOf(tags: map<string, string>, name: string): Option<string> {
    if name in tags then Some(tags[name]) else None
  }

  /** An attempt's next call when nothing fails; of the i-th package the first lag(i) checks still find nothing. */
  function Fresh(s: State, a: Attempt, lag: nat -> nat): Call
    requires a.phase.Viewing? || a.phase.Sending? || a.phase.Checking? ==> a.phase.i < |a.candidate.list|
  {
    match a.phase
    case Viewing(i) =>
      var name := a.candidate.list[i].name;
      View(if name in s.registry then Some(s.registry[name].sha1) else None, TagOf(s.tags, name))
    case Sending(_) => Send(true, true)
    case Checking(i, tries, _) =>
      var name := a.candidate.list[i].name;
      if tries < lag(i) then Compare(false, None, None)
      else Compare(name in s.registry, if name in s.registry then Some(s.registry[name].sha512) else None,
                   TagOf(s.tags, name))
    case Verified => WriteReceipt
    case Receipted => Conclude
    case _ => Crash
  }

  /** The registry holds nothing under the cohort's names but the cohort itself, whole or in part. */
  ghost predicate Compatible(s: State, c: Candidate) {
    && |c.list| == c.packageCount
    && (forall i | 0 <= i < |c.list| :: c.list[i].name != "" && Undisturbed(s, c, c.list[i]))
    && (forall i, j | 0 <= i < j < |c.list| && c.list[i].name == c.list[j].name ::
          c.list[i].tarball == c.list[j].tarball)
  }

  /** The package's tag is absent, empty or the cohort's version. */
  ghost predicate TagFits(s: State, c: Candidate, name: string) {
    name in s.tags ==> s.tags[name] == "" || s.tags[name] == c.version
  }

  ghost predicate Undisturbed(s: State, c: Candidate, listed: Listed) {
    listed.name in s.registry ==>
      s.registry[listed.name] == listed.tarball && TagFits(s, c, listed.name)
  }

  /** What the attempt has added to the registry and tags it found. */
  ghost predicate Added(s0: State, s: State, c: Candidate) {
    && (forall name | name in s0.registry ::
          name in s.registry && s.registry[name] == s0.registry[name] && TagOf(s.tags, name) == TagOf(s0.tags, name))
    && (forall name | name in s.registry && name !in s0.registry ::
          TagOf(s.tags, name) == Some(c.version) && Supplies(s, c, name))
  }

  ghost predicate Supplies(s: State, c: Candidate, name: string)
    requires name in s.registry
  {
    exists j :: 0 <= j < |c.list| && c.list[j].name == name && c.list[j].tarball == s.registry[name]
  }

  /** A listed package has passed the publish loop. */
  ghost predicate Passed(s0: State, s: State, c: Candidate, listed: Listed) {
    && listed.name != "" && listed.name in s.registry && s.registry[listed.name].sha1 == listed.tarball.sha1
    && (listed.name in s0.registry ==> !TagConflicts(c, TagOf(s0.tags, listed.name)))
  }

  ghost predicate PassedTo(s0: State, s: State, c: Candidate, i: nat)
    requires i <= |c.list|
  {
    forall j | 0 <= j < i :: Passed(s0, s, c, c.list[j])
  }

  ghost predicate CheckedTo(s: State, c: Candidate, i: nat)
    requires i <= |c.list|
  {
    forall j | 0 <= j < i :: InRegistry(s, c.list[j])
  }

  /** None of the first packages is found later than at the twelfth check. */
  ghost predicate LagsLess(lag: nat -> nat, count: nat) {
    forall i: nat | i < count :: lag(i) < 12
  }

  ghost predicate Along(lag: nat -> nat, s0: State, s: State, c: Candidate, phase: Phase) {
    match phase
    case Viewing(i) => i < |c.list| && PassedTo(s0, s, c, i)
    case Sending(i) => i < |c.list| && PassedTo(s0, s, c, i) && c.list[i].name != "" && c.list[i].name !in s.registry
    case Checking(i, tries, verified) =>
      && i < |c.list| && tries < TRIES && verified == i && LagsLess(lag, i)
      && PassedTo(s0, s, c, |c.list|) && CheckedTo(s, c, i)
    case Stopped => !Compatible(s0, c) || !LagsLess(lag, |c.list|)
    case _ =>
      && PassedTo(s0, s, c, |c.list|) && CheckedTo(s, c, |c.list|) && |c.list| == c.packageCount
      && LagsLess(lag, |c.list|)
  }

  ghost predicate Alone(lag: nat -> nat, s0: State, s: State, n: nat, c: Candidate) {
    && n < |s.attempts| && s.attempts[n].candidate == c
    && Added(s0, s, c) && Along(lag, s0, s, c, s.attempts[n].phase)
  }

  lemma PublishedAlong(lag: nat -> nat, s0: State, s: State, c: Candidate, i: nat)
    requires i <= |c.list| && PassedTo(s0, s, c, i)
    ensures Along(lag, s0, s, c, Published(c, i))
  {
    hide Passed;
    if i == |c.list| && |c.list| != 0 {
      assert CheckedTo(s, c, 0);
    }
  }

  lemma CheckedAlong(lag: nat -> nat, s0: State, s: State, c: Candidate, i: nat)
    requires i <= |c.list| && PassedTo(s0, s, c, |c.list|) && CheckedTo(s, c, i) && LagsLess(lag, i)
    ensures Along(lag, s0, s, c, Checked(c, i, i))
  {
    hide Passed, InRegistry;
  }

  /** A package the registry holds otherwise makes the cohort incompatible with what was there before. */
  lemma Otherwise(s0: State, s: State, c: Candidate, i: nat)
    requires Added(s0, s, c) && i < |c.list| && c.list[i].name in s.registry
    requires s.registry[c.list[i].name] != c.list[i].tarball
    ensures !Compatible(s0, c)
  {
    var name := c.list[i].name;
    if name in s0.registry {
      assert !Undisturbed(s0, c, c.list[i]);
    } else {
      var j :| 0 <= j < |c.list| && c.list[j].name == name && c.list[j].tarball == s.registry[name];
    }
  }

  lemma TagOtherwise(s0: State, s: State, c: Candidate, i: nat)
    requires Added(s0, s, c) && i < |c.list| && c.list[i].name in s.registry
    requires TagConflicts(c, TagOf(s.tags, c.list[i].name))
    ensures !Compatible(s0, c)
  {
    if c.list[i].name in s0.registry {
      assert !Undisturbed(s0, c, c.list[i]);
    }
  }

  lemma FreshIsAnswered(lag: nat -> nat, s0: State, s: State, n: nat, c: Candidate)
    requires Alone(lag, s0, s, n, c)
    ensures MayAnswer(s, s.attempts[n], Fresh(s, s.attempts[n], lag))
  {
    hide Added, PassedTo, CheckedTo, Compatible;
  }

  lemma FreshView(lag: nat -> nat, s0: State, s: State, n: nat, c: Candidate)
    requires Alone(lag, s0, s, n, c) && s.attempts[n].phase.Viewing?
    requires MayAnswer(s, s.attempts[n], Fresh(s, s.attempts[n], lag))
    ensures Alone(lag, s0, After(s, n, Fresh(s, s.attempts[n], lag)), n, c)
  {
    hide Compatible, Supplies;
    var i := s.attempts[n].phase.i;
    var name := c.list[i].name;
    var t := After(s, n, Fresh(s, s.attempts[n], lag));
    assert t.registry == s.registry && t.tags == s.tags;
    AddedSame(s0, s, t, c);
    PassedSame(s0, s, t, c, i);
    if name == "" {
      NamelessIsIncompatible(s0, c, i);
    } else if name in s.registry {
      if s.registry[name].sha1 != c.list[i].tarball.sha1 {
        Otherwise(s0, s, c, i);
      } else if TagConflicts(c, TagOf(s.tags, name)) {
        TagOtherwise(s0, s, c, i);
      } else {
        assert PassedTo(s0, t, c, i + 1);
        PublishedAlong(lag, s0, t, c, i + 1);
      }
    }
  }

  lemma AddedSame(s0: State, s: State, t: State, c: Candidate)
    requires Added(s0, s, c) && t.registry == s.registry && t.tags == s.tags
    ensures Added(s0, t, c)
  {
    forall name | name in t.registry && name !in s0.registry
      ensures Supplies(t, c, name)
    {
      assert Supplies(s, c, name);
    }
  }

  lemma PassedSame(s0: State, s: State, t: State, c: Candidate, i: nat)
    requires i <= |c.list| && PassedTo(s0, s, c, i) && Grows(s, t)
    ensures PassedTo(s0, t, c, i)
  {
    forall j | 0 <= j < i
      ensures Passed(s0, t, c, c.list[j])
    {
      assert Passed(s0, s, c, c.list[j]);
    }
  }

  lemma NamelessIsIncompatible(s0: State, c: Candidate, i: nat)
    requires i < |c.list| && c.list[i].name == ""
    ensures !Compatible(s0, c)
  {
    hide Undisturbed;
  }

  lemma FreshSend(lag: nat -> nat, s0: State, s: State, n: nat, c: Candidate)
    requires Alone(lag, s0, s, n, c) && s.attempts[n].phase.Sending?
    requires MayAnswer(s, s.attempts[n], Fresh(s, s.attempts[n], lag))
    ensures Alone(lag, s0, After(s, n, Fresh(s, s.attempts[n], lag)), n, c)
  {
    hide Compatible, Published;
    var i := s.attempts[n].phase.i;
    var t := After(s, n, Fresh(s, s.attempts[n], lag));
    CallGrows(s, n, Fresh(s, s.attempts[n], lag));
    forall name | name in t.registry && name !in s0.registry
      ensures TagOf(t.tags, name) == Some(c.version) && Supplies(t, c, name)
    {
      if name == c.list[i].name {
        assert c.list[i].tarball == t.registry[name];
      } else {
        assert Supplies(s, c, name);
      }
    }
    PassedSame(s0, s, t, c, i);
    assert Passed(s0, t, c, c.list[i]);
    assert PassedTo(s0, t, c, i + 1);
    PublishedAlong(lag, s0, t, c, i + 1);
  }

  lemma FreshCompare(lag: nat -> nat, s0: State, s: State, n: nat, c: Candidate)
    requires Alone(lag, s0, s, n, c) && s.attempts[n].phase.Checking?
    requires MayAnswer(s, s.attempts[n], Fresh(s, s.attempts[n], lag))
    ensures Alone(lag, s0, After(s, n, Fresh(s, s.attempts[n], lag)), n, c)
  {
    hide Compatible, Supplies, Checked;
    var i := s.attempts[n].phase.i;
    var t := After(s, n, Fresh(s, s.attempts[n], lag));
    assert t.registry == s.registry && t.tags == s.tags;
    AddedSame(s0, s, t, c);
    PassedSame(s0, s, t, c, |c.list|);
    assert Passed(s0, s, c, c.list[i]);
    var tries := s.attempts[n].phase.tries;
    if tries < lag(i) {
      assert tries + 1 >= TRIES ==> lag(i) >= 12;
      return;
    }
    assert LagsLess(lag, i + 1);
    if TagConflicts(c, TagOf(s.tags, c.list[i].name)) {
      TagOtherwise(s0, s, c, i);
    } else if s.registry[c.list[i].name].sha512 == c.list[i].tarball.sha512 {
      assert CheckedTo(t, c, i + 1);
      CheckedAlong(lag, s0, t, c, i + 1);
    } else {
      Otherwise(s0, s, c, i);
    }
  }

  lemma FreshEnd(lag: nat -> nat, s0: State, s: State, n: nat, c: Candidate)
    requires Alone(lag, s0, s, n, c) && (s.attempts[n].phase.Verified? || s.attempts[n].phase.Receipted?)
    requires MayAnswer(s, s.attempts[n], Fresh(s, s.attempts[n], lag))
    ensures Alone(lag, s0, After(s, n, Fresh(s, s.attempts[n], lag)), n, c)
  {
    hide Compatible, Supplies;
    var t := After(s, n, Fresh(s, s.attempts[n], lag));
    AddedSame(s0, s, t, c);
    PassedSame(s0, s, t, c, |c.list|);
  }

  /** How many fresh calls are still to come. */
  function CallsLeft(c: Candidate, phase: Phase): nat {
    var l := |c.list|;
    match phase
    case Viewing(i) => if i < l then 2 * (l - i) + 13 * l + 16 else 0
    case Sending(i) => if i < l then 2 * (l - i) + 13 * l + 15 else 0
    case Checking(i, tries, _) => if i < l && tries < TRIES then 13 * (l - i) + (TRIES - tries) + 2 else 0
    case Verified => 2
    case Receipted => 1
    case _ => 0
  }

  lemma FreshUsesUp(lag: nat -> nat, s0: State, s: State, n: nat, c: Candidate)
    requires Alone(lag, s0, s, n, c) && s.attempts[n].phase != Stopped && s.attempts[n].phase != Concluded
    requires MayAnswer(s, s.attempts[n], Fresh(s, s.attempts[n], lag))
    ensures var t := After(s, n, Fresh(s, s.attempts[n], lag));
      CallsLeft(c, t.attempts[n].phase) < CallsLeft(c, s.attempts[n].phase)
  {
    hide Added, PassedTo, CheckedTo, Compatible;
  }

  lemma FreshKeepsAlone(lag: nat -> nat, s0: State, s: State, n: nat, c: Candidate)
    requires Alone(lag, s0, s, n, c) && s.attempts[n].phase != Stopped && s.attempts[n].phase != Concluded
    requires MayAnswer(s, s.attempts[n], Fresh(s, s.attempts[n], lag))
    ensures Alone(lag, s0, After(s, n, Fresh(s, s.attempts[n], lag)), n, c)
  {
    hide Alone, MayAnswer, After, Fresh;
    PhaseInList(lag, s0, s, n, c);
    match s.attempts[n].phase
    case Viewing(_) => FreshView(lag, s0, s, n, c);
    case Sending(_) => FreshSend(lag, s0, s, n, c);
    case Checking(_, _, _) => FreshCompare(lag, s0, s, n, c);
    case _ => FreshEnd(lag, s0, s, n, c);
  }

  lemma AloneAtStart(lag: nat -> nat, s: State, n: nat, c: Candidate)
    requires n < |s.attempts| && s.attempts[n] == Attempt(c, Published(c, 0))
    ensures Alone(lag, s, s, n, c)
  {
    hide Compatible, Supplies;
    assert PassedTo(s, s, c, 0);
    PublishedAlong(lag, s, s, c, 0);
  }

  lemma ConcludedIsCompatible(lag: nat -> nat, s0: State, s: State, n: nat, c: Candidate)
    requires Alone(lag, s0, s, n, c) && s.attempts[n].phase == Concluded
    ensures Compatible(s0, c) && LagsLess(lag, |c.list|)
  {
    hide Supplies;
    forall i | 0 <= i < |c.list|
      ensures c.list[i].name != "" && Undisturbed(s0, c, c.list[i])
      ensures s.registry[c.list[i].name] == c.list[i].tarball
    {
      assert Passed(s0, s, c, c.list[i]) && InRegistry(s, c.list[i]);
    }
  }

  /**
   * An attempt left alone, from any registry state, concludes exactly when the registry held nothing else under the
   * cohort's names and no package is found later than at its twelfth check; then every listed package is there, and
   * what was there before is unchanged.
   */
  method FinishAttempt(s0: State, n: nat, lag: nat -> nat) returns (s: State, ghost run: seq<State>)
    requires n < |s0.attempts| && s0.attempts[n].phase == Published(s0.attempts[n].candidate, 0)
    ensures |s.attempts| == |s0.attempts| && s.attempts[n].candidate == s0.attempts[n].candidate
    ensures s.attempts[n].phase == Concluded <==>
      Compatible(s0, s0.attempts[n].candidate) && LagsLess(lag, |s0.attempts[n].candidate.list|)
    ensures s.attempts[n].phase == Concluded || s.attempts[n].phase == Stopped
    ensures s.attempts[n].phase == Concluded ==> Holds(s, s0.attempts[n].candidate)
    ensures Grows(s0, s)
    ensures |run| > 0 && run[0] == s0 && run[|run| - 1] == s
    ensures forall j, k | 0 <= j < k < |run| && k == j + 1 :: Moves(run[j], run[k])
  {
    hide Alone, MayAnswer, After, Fresh, Compatible, Moves, Published, Grows, CallsLeft;
    var c := s0.attempts[n].candidate;
    s := s0;
    run := [s0];
    AloneAtStart(lag, s0, n, c);
    GrowsSelf(s0);
    while s.attempts[n].phase != Concluded && s.attempts[n].phase != Stopped
      invariant n < |s.attempts| == |s0.attempts| && s.attempts[n].candidate == c
      invariant Alone(lag, s0, s, n, c) && Grows(s0, s)
      invariant |run| > 0 && run[0] == s0 && run[|run| - 1] == s
      invariant forall j, k | 0 <= j < k < |run| && k == j + 1 :: Moves(run[j], run[k])
      decreases CallsLeft(c, s.attempts[n].phase)
    {
      PhaseInList(lag, s0, s, n, c);
      var call := Fresh(s, s.attempts[n], lag);
      FreshIsAnswered(lag, s0, s, n, c);
      FreshKeepsAlone(lag, s0, s, n, c);
      FreshUsesUp(lag, s0, s, n, c);
      CallMoves(s, n, call);
      CallGrows(s, n, call);
      var t := After(s, n, call);
      GrowsTransitive(s0, s, t);
      run := run + [t];
      s := t;
    }
    if s.attempts[n].phase == Concluded {
      ConcludedIsCompatible(lag, s0, s, n, c);
      ConcludedHolds(lag, s0, s, n, c);
    } else {
      StoppedIsIncompatible(lag, s0, s, n, c);
    }
  }

  lemma PhaseInList(lag: nat -> nat, s0: State, s: State, n: nat, c: Candidate)
    requires Alone(lag, s0, s, n, c)
    ensures n < |s.attempts| && s.attempts[n].candidate == c
    ensures s.attempts[n].phase.Viewing? || s.attempts[n].phase.Sending? || s.attempts[n].phase.Checking? ==>
      s.attempts[n].phase.i < |c.list|
  {
    hide Added, PassedTo, CheckedTo, Compatible;
  }

  lemma GrowsSelf(s: State)
    ensures Grows(s, s)
  {
  }

  lemma GrowsTransitive(s: State, t: State, u: State)
    requires Grows(s, t) && Grows(t, u)
    ensures Grows(s, u)
  {
  }

  lemma CallMoves(s: State, n: nat, call: Call)
    requires n < |s.attempts| && MayAnswer(s, s.attempts[n], call)
    ensures Moves(s, After(s, n, call))
    ensures |After(s, n, call).attempts| == |s.attempts|
    ensures After(s, n, call).attempts[n].candidate == s.attempts[n].candidate
  {
  }

  lemma ConcludedHolds(lag: nat -> nat, s0: State, s: State, n: nat, c: Candidate)
    requires Alone(lag, s0, s, n, c) && s.attempts[n].phase == Concluded
    ensures Holds(s, c)
  {
    hide Added, PassedTo;
  }

  lemma StoppedIsIncompatible(lag: nat -> nat, s0: State, s: State, n: nat, c: Candidate)
    requires Alone(lag, s0, s, n, c) && s.attempts[n].phase == Stopped
    ensures !Compatible(s0, c) || !LagsLess(lag, |c.list|)
  {
    hide Compatible;
  }

  // ----- Retrying one cohort -----

  /** Every package is named, the list has as many as the manifest says, and a package listed twice is listed alike. */
  ghost predicate WellListed(c: Candidate) {
    && |c.list| == c.packageCount
    && (forall i | 0 <= i < |c.list| :: c.list[i].name != "")
    && (forall i, j | 0 <= i < j < |c.list| && c.list[i].name == c.list[j].name ::
          c.list[i].tarball == c.list[j].tarball)
  }

  /** All attempts so far, crashed or not, were for this cohort. */
  ghost predicate OnlyFor(s: State, c: Candidate) {
    forall n | 0 <= n < |s.attempts| :: s.attempts[n].candidate == c
  }

  /** No tag of the cohort's packages names another version. */
  ghost predicate TagsFit(s: State, c: Candidate) {
    forall i | 0 <= i < |c.list| :: TagFits(s, c, c.list[i].name)
  }

  ghost predicate AllSupplied(s: State, c: Candidate) {
    forall name | name in s.registry :: Supplies(s, c, name)
  }

  lemma CallSupplies(s: State, n: nat, call: Call, c: Candidate)
    requires n < |s.attempts| && MayAnswer(s, s.attempts[n], call)
    requires AllSupplied(s, c) && OnlyFor(s, c)
    ensures AllSupplied(After(s, n, call), c)
  {
    hide PhaseAfter;
    var t := After(s, n, call);
    forall name | name in t.registry
      ensures Supplies(t, c, name)
    {
      if name in s.registry && t.registry[name] == s.registry[name] {
        assert Supplies(s, c, name);
      } else {
        assert c.list[s.attempts[n].phase.i].tarball == t.registry[name];
      }
    }
  }

  lemma MoveSupplies(s: State, t: State, c: Candidate)
    requires Moves(s, t) && OnlyFor(t, c) && (OnlyFor(s, c) ==> AllSupplied(s, c))
    ensures OnlyFor(s, c) && AllSupplied(t, c)
  {
    hide MayAnswer, After, Published, Supplies;
    if n, call :| 0 <= n < |s.attempts| && MayAnswer(s, s.attempts[n], call) && t == After(s, n, call) {
      CallKeepsCohort(s, n, call, c);
      CallSupplies(s, n, call, c);
    } else {
      assert forall n | 0 <= n < |s.attempts| :: t.attempts[n] == s.attempts[n];
      SameRegistry(s, t, c);
    }
  }

  lemma CallKeepsCohort(s: State, n: nat, call: Call, c: Candidate)
    requires n < |s.attempts| && MayAnswer(s, s.attempts[n], call) && OnlyFor(After(s, n, call), c)
    ensures OnlyFor(s, c)
  {
    hide PhaseAfter;
    var t := After(s, n, call);
    assert |t.attempts| == |s.attempts|;
    assert forall m | 0 <= m < |s.attempts| :: t.attempts[m].candidate == s.attempts[m].candidate;
  }

  lemma SameRegistry(s: State, t: State, c: Candidate)
    requires t.registry == s.registry && AllSupplied(s, c)
    ensures AllSupplied(t, c)
  {
    forall name | name in t.registry
      ensures Supplies(t, c, name)
    {
      assert Supplies(s, c, name);
    }
  }

  /** As long as all attempts are for one cohort, the registry holds nothing but that cohort's tarballs. */
  lemma {:induction false} CohortSupplies(run: seq<State>, k: nat, c: Candidate)
    requires IsRun(run) && k < |run| && OnlyFor(run[k], c)
    ensures AllSupplied(run[k], c)
  {
    hide Moves, OnlyFor, AllSupplied;
    if k == 0 {
      NothingSupplied(run[0], c);
    } else {
      if OnlyFor(run[k - 1], c) { CohortSupplies(run, k - 1, c); }
      MoveSupplies(run[k - 1], run[k], c);
    }
  }

  lemma NothingSupplied(s: State, c: Candidate)
    requires s.registry == map[]
    ensures AllSupplied(s, c)
  {
  }

  /** Whatever its attempts left behind, a cohort is compatible with itself. */
  lemma PartialCohortIsCompatible(run: seq<State>, k: nat, c: Candidate)
    requires IsRun(run) && k < |run| && OnlyFor(run[k], c) && WellListed(c) && TagsFit(run[k], c)
    ensures Compatible(run[k], c)
  {
    hide Moves, OnlyFor, TagConflicts;
    CohortSupplies(run, k, c);
    forall i | 0 <= i < |c.list|
      ensures Undisturbed(run[k], c, c.list[i])
    {
      if c.list[i].name in run[k].registry { assert Supplies(run[k], c, c.list[i].name); }
    }
  }

  lemma RunsOn(run: seq<State>, more: seq<State>)
    requires IsRun(run) && |more| > 0 && more[0] == run[|run| - 1]
    requires forall j, k | 0 <= j < k < |more| && k == j + 1 :: Moves(more[j], more[k])
    ensures IsRun(run + more[1..]) && (run + more[1..])[|run + more[1..]| - 1] == more[|more| - 1]
  {
    hide Moves;
    var all := run + more[1..];
    forall j, k | 0 <= j < k < |all| && k == j + 1
      ensures Moves(all[j], all[k])
    {
      if j >= |run| - 1 { assert all[j] == more[j - (|run| - 1)] && all[k] == more[k - (|run| - 1)]; }
    }
  }

  /**
   * From any state the attempts of one cohort left, an attempt left alone completes the cohort and its receipt, unless
   * some package is found later than at its twelfth check.
   */
  method RetryCohort(ghost run: seq<State>, s0: State, n: nat, lag: nat -> nat)
    returns (s: State, ghost more: seq<State>)
    requires IsRun(run) && s0 == run[|run| - 1]
    requires n < |s0.attempts| && s0.attempts[n].phase == Published(s0.attempts[n].candidate, 0)
    requires OnlyFor(s0, s0.attempts[n].candidate)
    requires WellListed(s0.attempts[n].candidate) && TagsFit(s0, s0.attempts[n].candidate)
    ensures |s.attempts| == |s0.attempts| && s.attempts[n].candidate == s0.attempts[n].candidate
    ensures LagsLess(lag, |s0.attempts[n].candidate.list|) ==>
      && s.attempts[n].phase == Concluded && Holds(s, s0.attempts[n].candidate)
      && s0.attempts[n].candidate in s.receipts
    ensures !LagsLess(lag, |s0.attempts[n].candidate.list|) ==> s.attempts[n].phase == Stopped
    ensures |more| > 0 && IsRun(run + more[1..]) && (run + more[1..])[|run + more[1..]| - 1] == s
  {
    hide Moves, OnlyFor, WellListed, TagsFit, Compatible, Published, Holds, LagsLess;
    var c := s0.attempts[n].candidate;
    PartialCohortIsCompatible(run, |run| - 1, c);
    s, more := FinishAttempt(s0, n, lag);
    RunsOn(run, more);
    ghost var all := run + more[1..];
    RunKeepsInv(all, |all| - 1);
    if s.attempts[n].phase == Concluded { ConcludedHasReceipt(s, n); }
  }

  lemma ConcludedHasReceipt(s: State, n: nat)
    requires Inv(s) && n < |s.attempts| && s.attempts[n].phase == Concluded
    ensures s.attempts[n].candidate in s.receipts
  {
    hide Holds;
    assert PhaseHolds(s, s.attempts[n]);
  }
}
