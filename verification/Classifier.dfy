/** Classifying one measurement against its baseline, and summarising all of them. */
module Classifier {
  import opened Common
  import opened OrderStatistics

  datatype Mode = Paired | Budget | Historical | DiagnosticOnly | OtherMode

  datatype Kind = Deterministic | OtherKind

  datatype Policy = Policy(
    enabled: bool,
    mode: Mode,
    noiseFloor: real,
    warnAbs: real, warnRatio: real, failAbs: real, failRatio: real,
    toleranceAbs: real, toleranceRatio: real,
    minBaselineSources: int, minCurrentSamples: int, minPairedSamples: int,
    quantile: Quantile)

  /** A side of the comparison: its median and the spread around it, where recorded. */
  datatype Sample = Sample(value: real, p25: Option<real>, p75: Option<real>, mad: Option<real>)

  datatype PairedSummary = PairedSummary(median: Option<real>, p25: Option<real>, p75: Option<real>, mad: Option<real>)

  datatype Input = Input(
    kind: Kind, policy: Policy, current: Sample, baseline: Sample,
    currentSamples: int, baselineSources: int, pairedSamples: int,
    paired: PairedSummary, deltas: seq<real>)

  // ----- Policies -----

  function IsSize(metric: string): bool {
    metric == "nix.closure.nar_size" || metric == "nix.closure.bucket.nar_size" || metric == "nix.closure.path_count"
  }

  function NoiseFloor(metric: string, unit: string): real {
    if metric == "nix.closure.nar_size" || metric == "nix.closure.bucket.nar_size" then 10485760.0
    else if metric == "nix.closure.path_count" then 10.0
    else if unit == "seconds" then 0.1
    else 0.0
  }

  function DefaultPolicy(metric: string, unit: string): Policy {
    var mode := if IsSize(metric) || unit != "seconds" then Budget else Historical;
    var sources := if IsSize(metric) || unit != "seconds" then 1 else 10;
    var samples := if unit == "seconds" then 3 else 1;
    var pairs := if unit == "seconds" then 5 else 0;
    var noise := NoiseFloor(metric, unit);
    if metric == "nix.closure.nar_size" then
      Policy(true, mode, noise, 52428800.0, 1.05, 209715200.0, 1.10, 10485760.0, 0.02, sources, samples, pairs, 0.25)
    else if metric == "nix.closure.bucket.nar_size" then
      Policy(true, mode, noise, 52428800.0, 1.10, 209715200.0, 1.20, 10485760.0, 0.05, sources, samples, pairs, 0.25)
    else if metric == "nix.closure.path_count" then
      Policy(true, mode, noise, 100.0, 1.05, 500.0, 1.10, 10.0, 0.02, sources, samples, pairs, 0.25)
    else if unit == "seconds" then
      Policy(true, mode, noise, 0.25, 1.10, 1.0, 1.20, 0.25, 0.10, sources, samples, pairs, 0.25)
    else
      Policy(true, mode, noise, 1.0, 1.25, 3.0, 1.50, 1.0, 0.10, sources, samples, pairs, 0.25)
  }

  /** What an observation's own policy sets; the rest is the default's. */
  datatype Overrides = Overrides(
    enabled: Option<bool>, mode: Option<Mode>, noiseFloor: Option<real>,
    warnAbs: Option<real>, warnRatio: Option<real>, failAbs: Option<real>, failRatio: Option<real>,
    toleranceAbs: Option<real>, toleranceRatio: Option<real>,
    minBaselineSources: Option<int>, minCurrentSamples: Option<int>, minPairedSamples: Option<int>,
    quantile: Option<Quantile>)

  function Or<T>(o: Option<T>, otherwise: T): T {
    if o.Some? then o.value else otherwise
  }

  function ObservationPolicy(metric: string, unit: string, o: Overrides): Policy {
    var d := DefaultPolicy(metric, unit);
    Policy(Or(o.enabled, d.enabled), Or(o.mode, d.mode), Or(o.noiseFloor, d.noiseFloor),
           Or(o.warnAbs, d.warnAbs), Or(o.warnRatio, d.warnRatio),
           Or(o.failAbs, d.failAbs), Or(o.failRatio, d.failRatio),
           Or(o.toleranceAbs, d.toleranceAbs), Or(o.toleranceRatio, d.toleranceRatio),
           Or(o.minBaselineSources, d.minBaselineSources), Or(o.minCurrentSamples, d.minCurrentSamples),
           Or(o.minPairedSamples, d.minPairedSamples), Or(o.quantile, d.quantile))
  }

  // ----- The quantities of one comparison -----

  const EPSILON: real := 0.000000001

  function Max(a: real, b: real): real {
    if a < b then b else a
  }

  function Delta(x: Input): real {
    x.current.value - x.baseline.value
  }

  function EvidenceDelta(x: Input): real {
    if x.policy.mode == Paired && x.paired.median.Some? then x.paired.median.value else Delta(x)
  }

  function Iqr(p25: Option<real>, p75: Option<real>, otherwise: real): real {
    Or(p75, otherwise) - Or(p25, otherwise)
  }

  function Scaled(value: real, factor: real): real {
    if value > 0.0 then value * factor else 0.0
  }

  /** The widest of the noise, the policy's tolerances and the recorded spread. */
  function Tolerance(policy: Policy, value: real, mad: Option<real>, iqr: real): real {
    Max(policy.noiseFloor,
        Max(policy.toleranceAbs, Max(Scaled(value, policy.toleranceRatio), Max(Or(mad, 0.0) * 3.0, iqr * 1.5))))
  }

  function RobustTolerance(x: Input): real {
    Tolerance(x.policy, x.baseline.value, x.baseline.mad, Iqr(x.baseline.p25, x.baseline.p75, x.baseline.value))
  }

  function CurrentTolerance(x: Input): real {
    if x.currentSamples > 1 then
      Tolerance(x.policy, x.current.value, x.current.mad, Iqr(x.current.p25, x.current.p75, x.current.value))
    else 0.0
  }

  function PairedTolerance(x: Input): real {
    Tolerance(x.policy, x.baseline.value, x.paired.mad, Iqr(x.paired.p25, x.paired.p75, EvidenceDelta(x)))
  }

  predicate HasDeltas(x: Input) {
    x.policy.mode == Paired && |x.deltas| > 0
  }

  function Lower(x: Input): real {
    if HasDeltas(x) then Percentile(x.deltas, x.policy.quantile).value else EvidenceDelta(x) - PairedTolerance(x)
  }

  function Upper(x: Input): real {
    if HasDeltas(x) then Percentile(x.deltas, 1.0 - x.policy.quantile).value else EvidenceDelta(x) + PairedTolerance(x)
  }

  function BudgetOf(policy: Policy, baseline: real, abs: real, ratio: real): real {
    Max(abs, Max(Scaled(baseline, ratio - 1.0), Max(policy.noiseFloor, EPSILON)))
  }

  function WarnBudget(x: Input): real {
    BudgetOf(x.policy, x.baseline.value, x.policy.warnAbs, x.policy.warnRatio)
  }

  function FailBudget(x: Input): real {
    BudgetOf(x.policy, x.baseline.value, x.policy.failAbs, x.policy.failRatio)
  }

  predicate WithinRobustBand(x: Input) {
    var c, b, tolerance := x.current.value, x.baseline.value, CurrentTolerance(x);
    || (b - RobustTolerance(x) <= c <= b + RobustTolerance(x))
    || (tolerance > 0.0 && c - tolerance <= b + RobustTolerance(x) && c + tolerance >= b - RobustTolerance(x))
  }

  predicate Suppressible(x: Input) {
    x.policy.mode == Historical && x.kind != Deterministic
  }

  // ----- The decision chains -----

  datatype Status = Fail | Warn | Pass | Unknown

  function ThresholdStatus(x: Input): Status {
    if x.baseline.value <= 0.0 then Unknown
    else if x.policy.mode == Paired then
      if Lower(x) > FailBudget(x) then Fail else if Lower(x) > WarnBudget(x) then Warn else Pass
    else if Delta(x) > x.policy.failAbs && x.current.value > x.baseline.value * x.policy.failRatio then Fail
    else if Delta(x) > x.policy.warnAbs && x.current.value > x.baseline.value * x.policy.warnRatio then Warn
    else Pass
  }

  predicate Gateable(x: Input) {
    && x.policy.enabled
    && x.baseline.value > 0.0
    && (x.policy.mode != Paired ==> x.baselineSources >= x.policy.minBaselineSources)
    && x.currentSamples >= x.policy.minCurrentSamples
    && (x.policy.mode == Paired ==> x.pairedSamples >= x.policy.minPairedSamples)
    && (x.policy.mode == Paired ==> x.paired.median.Some?)
  }

  datatype GateReason = Disabled | MissingBaseline | LowBaselineCount | LowCurrentSampleCount | LowPairedSampleCount
    | MissingPairedDelta | Eligible

  function GateReasonOf(x: Input): GateReason {
    if !x.policy.enabled then Disabled
    else if x.baseline.value <= 0.0 then MissingBaseline
    else if x.policy.mode != Paired && x.baselineSources < x.policy.minBaselineSources then LowBaselineCount
    else if x.currentSamples < x.policy.minCurrentSamples then LowCurrentSampleCount
    else if x.policy.mode == Paired && x.pairedSamples < x.policy.minPairedSamples then LowPairedSampleCount
    else if x.policy.mode == Paired && x.paired.median.None? then MissingPairedDelta
    else Eligible
  }

  datatype Confidence = ConfidenceUnknown | ConfidenceDiagnostic | WithinNoise | FewBaselines
    | FewCurrentSamples | FewPairedSamples
    | NoPairedDelta | PairedUncertain | InRobustBand | WithinBudget | ThresholdExceeded

  function ConfidenceOf(x: Input): Confidence {
    if x.baseline.value <= 0.0 then ConfidenceUnknown
    else if !x.policy.enabled then ConfidenceDiagnostic
    else if Abs(Delta(x)) <= x.policy.noiseFloor then WithinNoise
    else if x.policy.mode != Paired && x.baselineSources < x.policy.minBaselineSources then FewBaselines
    else if x.currentSamples < x.policy.minCurrentSamples then FewCurrentSamples
    else if x.policy.mode == Paired && x.pairedSamples < x.policy.minPairedSamples then FewPairedSamples
    else if x.policy.mode == Paired && x.paired.median.None? then NoPairedDelta
    else if x.policy.mode == Paired && ThresholdStatus(x) == Pass && EvidenceDelta(x) > WarnBudget(x)
      then PairedUncertain
    else if Suppressible(x) && ThresholdStatus(x) != Pass && WithinRobustBand(x) then InRobustBand
    else if ThresholdStatus(x) == Pass then WithinBudget
    else ThresholdExceeded
  }

  function StatusOf(x: Input): Status {
    if Gateable(x) && ConfidenceOf(x) == ThresholdExceeded then ThresholdStatus(x)
    else if ThresholdStatus(x) == Unknown then Unknown
    else Pass
  }

  datatype Direction = DirectionUnknown | Unchanged | Improved | Regressed

  function DirectionOf(x: Input): Direction {
    if x.baseline.value <= 0.0 then DirectionUnknown
    else if x.policy.mode == Paired then
      if Abs(EvidenceDelta(x)) <= x.policy.noiseFloor then Unchanged
      else if Lower(x) <= 0.0 && Upper(x) >= 0.0 then Unchanged
      else if EvidenceDelta(x) < 0.0 then Improved
      else Regressed
    else if Abs(Delta(x)) <= x.policy.noiseFloor then Unchanged
    else if Suppressible(x) && WithinRobustBand(x) then Unchanged
    else if Delta(x) < 0.0 then Improved
    else Regressed
  }

  /** How far current lies beyond the robust bands, above or below. */
  function Overshoot(x: Input): real {
    (x.current.value - CurrentTolerance(x)) - (x.baseline.value + RobustTolerance(x))
  }

  function Undershoot(x: Input): real {
    (x.baseline.value - RobustTolerance(x)) - (x.current.value + CurrentTolerance(x))
  }

  function Impact(x: Input): Option<real> {
    BudgetPositive(x.policy, x.baseline.value, x.policy.warnAbs, x.policy.warnRatio);
    if x.baseline.value <= 0.0 then None
    else if !x.policy.enabled then None
    else if x.policy.mode == Paired && Lower(x) <= 0.0 && Upper(x) >= 0.0 then Some(0.0)
    else if x.policy.mode == Paired && Abs(EvidenceDelta(x)) <= x.policy.noiseFloor then Some(0.0)
    else if x.policy.mode == Paired && EvidenceDelta(x) > 0.0 then Some(Max(0.0, Lower(x)) / WarnBudget(x))
    else if x.policy.mode == Paired then Some(-(Max(0.0, -Upper(x)) / WarnBudget(x)))
    else if Suppressible(x) && WithinRobustBand(x) then Some(0.0)
    else if Abs(Delta(x)) <= x.policy.noiseFloor then Some(0.0)
    else if ConfidenceOf(x) == ThresholdExceeded && Delta(x) > 0.0 then
      Some(Max(0.0, Max(Overshoot(x), Delta(x))) / WarnBudget(x))
    else if ConfidenceOf(x) == ThresholdExceeded && Delta(x) < 0.0 then
      Some(-(Max(0.0, Max(Undershoot(x), -Delta(x))) / WarnBudget(x)))
    else if Delta(x) > 0.0 then Some(Max(0.0, Overshoot(x)) / WarnBudget(x))
    else Some(-(Max(0.0, Undershoot(x)) / WarnBudget(x)))
  }

  datatype ImpactKind = ImpactDiagnostic | ImpactUnknown | Neutral | FailBoundary
    | WarnBoundary | BelowWarnBoundary | Improvement

  function ImpactKindOf(x: Input): ImpactKind {
    BudgetPositive(x.policy, x.baseline.value, x.policy.warnAbs, x.policy.warnRatio);
    if !x.policy.enabled then ImpactDiagnostic
    else
      match Impact(x)
      case None => ImpactUnknown
      case Some(score) =>
        if score == 0.0 then Neutral
        else if score >= FailBudget(x) / WarnBudget(x) then FailBoundary
        else if score >= 1.0 then WarnBoundary
        else if score > 0.0 then BelowWarnBoundary
        else Improvement
  }

  lemma BudgetPositive(policy: Policy, baseline: real, abs: real, ratio: real)
    ensures BudgetOf(policy, baseline, abs, ratio) >= EPSILON > 0.0
    ensures BudgetOf(policy, baseline, abs, ratio) >= abs && BudgetOf(policy, baseline, abs, ratio) >= policy.noiseFloor
  {
  }

  // ----- The chains agree -----

  /** The gate decision and the reason given for it never contradict each other. */
  lemma GateableIffEligible(x: Input)
    ensures Gateable(x) <==> GateReasonOf(x) == Eligible
  {
  }

  /**
   * Beyond the noise, an enabled row with a baseline is held back for the same reason in both chains, or for none in
   * both.
   */
  lemma ReasonsAgree(x: Input)
    requires x.policy.enabled && x.baseline.value > 0.0 && Abs(Delta(x)) > x.policy.noiseFloor
    ensures GateReasonOf(x) == LowBaselineCount <==> ConfidenceOf(x) == FewBaselines
    ensures GateReasonOf(x) == LowCurrentSampleCount <==> ConfidenceOf(x) == FewCurrentSamples
    ensures GateReasonOf(x) == LowPairedSampleCount <==> ConfidenceOf(x) == FewPairedSamples
    ensures GateReasonOf(x) == MissingPairedDelta <==> ConfidenceOf(x) == NoPairedDelta
    ensures GateReasonOf(x) == Eligible <==>
      ConfidenceOf(x) in {PairedUncertain, InRobustBand, WithinBudget, ThresholdExceeded}
  {
    hide WithinRobustBand, Lower, WarnBudget, FailBudget;
  }

  /** A row fails or warns exactly when it can be gated, exceeds that threshold and the noise, and is not suppressed. */
  lemma StatusIff(x: Input, s: Status)
    requires s == Fail || s == Warn
    ensures StatusOf(x) == s <==>
      Gateable(x) && ThresholdStatus(x) == s && Abs(Delta(x)) > x.policy.noiseFloor
      && !(Suppressible(x) && WithinRobustBand(x))
  {
    hide WithinRobustBand, Lower, WarnBudget, FailBudget;
  }

  /** Enough samples for the policy, a move beyond the noise, and not held back by the robust bands. */
  predicate Counts(x: Input) {
    && x.policy.enabled && x.baseline.value > 0.0 && x.currentSamples >= x.policy.minCurrentSamples
    && (if x.policy.mode == Paired then x.pairedSamples >= x.policy.minPairedSamples && x.paired.median.Some?
        else x.baselineSources >= x.policy.minBaselineSources)
    && Abs(x.current.value - x.baseline.value) > x.policy.noiseFloor
    && !(x.policy.mode == Historical && x.kind != Deterministic && WithinRobustBand(x))
  }

  /** The increase exceeds the absolute threshold, and the ratio to the baseline exceeds the relative one. */
  predicate Exceeds(x: Input, abs: real, ratio: real) {
    x.current.value - x.baseline.value > abs && x.current.value > x.baseline.value * ratio
  }

  /** An unpaired row that counts fails when it exceeds both fail thresholds and warns when it exceeds both others. */
  lemma UnpairedStatusIs(x: Input)
    requires x.policy.mode != Paired
    ensures StatusOf(x) == Fail <==> Counts(x) && Exceeds(x, x.policy.failAbs, x.policy.failRatio)
    ensures StatusOf(x) == Warn <==>
      Counts(x) && Exceeds(x, x.policy.warnAbs, x.policy.warnRatio) && !Exceeds(x, x.policy.failAbs, x.policy.failRatio)
    ensures StatusOf(x) == Unknown <==> x.baseline.value <= 0.0
  {
    hide WithinRobustBand;
    StatusIff(x, Fail);
    StatusIff(x, Warn);
  }

  /** A paired row that counts fails or warns when the lower evidence bound exceeds the whole budget. */
  lemma PairedStatusIs(x: Input)
    requires x.policy.mode == Paired
    ensures StatusOf(x) == Fail <==> Counts(x) && Lower(x) > FailBudget(x)
    ensures StatusOf(x) == Warn <==> Counts(x) && WarnBudget(x) < Lower(x) <= FailBudget(x)
    ensures StatusOf(x) == Unknown <==> x.baseline.value <= 0.0
  {
    hide WithinRobustBand, Lower, WarnBudget, FailBudget;
    StatusIff(x, Fail);
    StatusIff(x, Warn);
  }

  /** A budget is the greatest of its parts: the threshold, the part of the baseline, the noise and the least budget. */
  lemma BudgetIs(policy: Policy, baseline: real, abs: real, ratio: real)
    requires baseline > 0.0
    ensures var budget := BudgetOf(policy, baseline, abs, ratio);
      && budget >= abs && budget >= baseline * ratio - baseline && budget >= policy.noiseFloor
      && budget >= 0.000000001
      && (budget == abs || budget == baseline * ratio - baseline || budget == policy.noiseFloor
          || budget == 0.000000001)
  {
    assert baseline * (ratio - 1.0) == baseline * ratio - baseline;
  }

  function Raised(x: Input, value: real): Input {
    x.(current := x.current.(value := value))
  }

  ghost predicate StaysAlarmed(x: Input) {
    forall value | value >= x.current.value :: StatusOf(Raised(x, value)) == Fail || StatusOf(Raised(x, value)) == Warn
  }

  /**
   * A still higher value never makes an unpaired row that alarms pass again, unless suppression applies or the value
   * was below its baseline, where thresholds below zero let it alarm.
   */
  lemma RaisingKeepsAlarm(x: Input)
    requires x.policy.mode != Paired && !Suppressible(x) && (StatusOf(x) == Fail || StatusOf(x) == Warn)
    requires x.policy.noiseFloor >= 0.0
    ensures StaysAlarmed(x) <==> x.current.value > x.baseline.value
    ensures x.current.value > x.baseline.value && StatusOf(x) == Fail ==>
      forall value | value >= x.current.value :: StatusOf(Raised(x, value)) == Fail
  {
    hide WithinRobustBand, StatusOf;
    UnpairedStatusIs(x);
    forall value | value >= x.current.value
      ensures var y := Raised(x, value);
        && (StatusOf(y) == Fail <==> Counts(y) && Exceeds(y, y.policy.failAbs, y.policy.failRatio))
        && (StatusOf(y) == Warn <==>
              Counts(y) && Exceeds(y, y.policy.warnAbs, y.policy.warnRatio)
              && !Exceeds(y, y.policy.failAbs, y.policy.failRatio))
    {
      UnpairedStatusIs(Raised(x, value));
    }
    if x.current.value <= x.baseline.value { assert !Counts(Raised(x, x.baseline.value)); }
  }

  /** The two bands overlap exactly when the values are no further apart than both tolerances together. */
  lemma BandIff(x: Input)
    requires RobustTolerance(x) >= 0.0 && CurrentTolerance(x) >= 0.0
    ensures WithinRobustBand(x) <==>
      Abs(x.current.value - x.baseline.value) <= RobustTolerance(x) + CurrentTolerance(x)
  {
    hide RobustTolerance, CurrentTolerance;
  }

  /** The evidence for a paired row is its recorded median; its bounds are two deltas, or lie a tolerance around it. */
  lemma EvidenceIs(x: Input)
    ensures x.policy.mode != Paired || x.paired.median.None? ==> EvidenceDelta(x) == x.current.value - x.baseline.value
    ensures x.policy.mode == Paired && x.paired.median.Some? ==> x.paired.median == Some(EvidenceDelta(x))
    ensures x.policy.mode == Paired && x.deltas != [] ==>
      && IsNth(x.deltas, Rank(|x.deltas|, x.policy.quantile), Lower(x))
      && IsNth(x.deltas, Rank(|x.deltas|, 1.0 - x.policy.quantile), Upper(x))
    ensures x.policy.mode != Paired || x.deltas == [] ==>
      Lower(x) + PairedTolerance(x) == EvidenceDelta(x) == Upper(x) - PairedTolerance(x)
  {
    hide IsNth, Percentile, Rank, PairedTolerance;
    if x.deltas != [] {
      PercentileIs(x.deltas, x.policy.quantile);
      PercentileIs(x.deltas, 1.0 - x.policy.quantile);
    }
  }

  /** Each side of the comparison has a tolerance of its own; a single current value has none. */
  lemma SidesTolerate(x: Input)
    ensures var b, c := x.baseline, x.current;
      && RobustTolerance(x) == Tolerance(x.policy, b.value, b.mad, Or(b.p75, b.value) - Or(b.p25, b.value))
      && (x.currentSamples <= 1 ==> CurrentTolerance(x) == 0.0)
      && (x.currentSamples >= 2 ==>
            CurrentTolerance(x) == Tolerance(x.policy, c.value, c.mad, Or(c.p75, c.value) - Or(c.p25, c.value)))
  {
    hide Tolerance;
  }

  /** A tolerance is the greatest of the noise, the policy's two tolerances and the two measures of recorded spread. */
  lemma ToleranceIs(policy: Policy, value: real, mad: real, p25: real, p75: real)
    requires value > 0.0
    ensures var tolerance := Tolerance(policy, value, Some(mad), Iqr(Some(p25), Some(p75), value));
      var ratio, deviation, range := value * policy.toleranceRatio, mad * 3.0, (p75 - p25) * 1.5;
      && tolerance >= policy.noiseFloor && tolerance >= policy.toleranceAbs
      && tolerance >= ratio && tolerance >= deviation && tolerance >= range
      && (tolerance == policy.noiseFloor || tolerance == policy.toleranceAbs || tolerance == ratio
          || tolerance == deviation || tolerance == range)
  {
  }

  /** Under the default policies sizes fail on a growth by both of these amounts, whatever their spread. */
  lemma DefaultSizesFail(x: Input, metric: string, unit: string)
    requires x.policy == DefaultPolicy(metric, unit) && unit != "seconds"
    requires x.baseline.value > 0.0 && x.currentSamples >= 1 && x.baselineSources >= 1
    ensures metric == "nix.closure.nar_size" ==>
      (StatusOf(x) == Fail <==> x.current.value > x.baseline.value + 209715200.0
                                && x.current.value > x.baseline.value * 1.10)
    ensures metric == "nix.closure.bucket.nar_size" ==>
      (StatusOf(x) == Fail <==> x.current.value > x.baseline.value + 209715200.0
                                && x.current.value > x.baseline.value * 1.20)
    ensures metric == "nix.closure.path_count" ==>
      (StatusOf(x) == Fail <==> x.current.value > x.baseline.value + 500.0
                                && x.current.value > x.baseline.value * 1.10)
    ensures !IsSize(metric) ==>
      (StatusOf(x) == Fail <==> x.current.value > x.baseline.value + 3.0 && x.current.value > x.baseline.value * 1.50)
    ensures metric == "nix.closure.nar_size" ==>
      (StatusOf(x) == Warn || StatusOf(x) == Fail <==>
        x.current.value > x.baseline.value + 52428800.0 && x.current.value > x.baseline.value * 1.05)
    ensures metric == "nix.closure.bucket.nar_size" ==>
      (StatusOf(x) == Warn || StatusOf(x) == Fail <==>
        x.current.value > x.baseline.value + 52428800.0 && x.current.value > x.baseline.value * 1.10)
    ensures metric == "nix.closure.path_count" ==>
      (StatusOf(x) == Warn || StatusOf(x) == Fail <==>
        x.current.value > x.baseline.value + 100.0 && x.current.value > x.baseline.value * 1.05)
    ensures !IsSize(metric) ==>
      (StatusOf(x) == Warn || StatusOf(x) == Fail <==>
        x.current.value > x.baseline.value + 1.0 && x.current.value > x.baseline.value * 1.25)
  {
    hide WithinRobustBand, StatusOf;
    UnpairedStatusIs(x);
  }

  /** Under the default policy a duration needs ten baselines and three samples, and must leave the robust bands. */
  lemma DefaultDurationsFail(x: Input, metric: string)
    requires x.policy == DefaultPolicy(metric, "seconds") && !IsSize(metric) && x.kind != Deterministic
    requires x.baseline.value > 0.0
    ensures StatusOf(x) == Fail <==>
      && x.baselineSources >= 10 && x.currentSamples >= 3 && !WithinRobustBand(x)
      && x.current.value > x.baseline.value + 1.0 && x.current.value > x.baseline.value * 1.20
    ensures StatusOf(x) == Warn || StatusOf(x) == Fail <==>
      && x.baselineSources >= 10 && x.currentSamples >= 3 && !WithinRobustBand(x)
      && x.current.value > x.baseline.value + 0.25 && x.current.value > x.baseline.value * 1.10
  {
    hide WithinRobustBand, StatusOf;
    UnpairedStatusIs(x);
  }

  /**
   * The impact of an unpaired row, in warn budgets: its whole move when a threshold is exceeded, and otherwise what of
   * the move lies beyond both tolerances.
   */
  lemma ImpactIs(x: Input)
    requires x.policy.mode != Paired && x.policy.enabled && x.baseline.value > 0.0
    requires RobustTolerance(x) >= 0.0 && CurrentTolerance(x) >= 0.0
    requires Abs(Delta(x)) > x.policy.noiseFloor && !(Suppressible(x) && WithinRobustBand(x)) && Delta(x) != 0.0
    ensures var beyond := Abs(x.current.value - x.baseline.value) - RobustTolerance(x) - CurrentTolerance(x);
      var size := if ConfidenceOf(x) == ThresholdExceeded then Abs(x.current.value - x.baseline.value)
                  else if beyond > 0.0 then beyond else 0.0;
      Impact(x) == Some(if x.current.value > x.baseline.value then size / WarnBudget(x) else -(size / WarnBudget(x)))
  {
    hide RobustTolerance, CurrentTolerance, WithinRobustBand, ConfidenceOf;
  }

  /** The impact of a paired row is the evidence bound nearer to zero, in warn budgets, and zero between the bounds. */
  lemma PairedImpactIs(x: Input)
    requires x.policy.mode == Paired && x.policy.enabled && x.baseline.value > 0.0
    ensures Abs(EvidenceDelta(x)) <= x.policy.noiseFloor || Lower(x) <= 0.0 <= Upper(x) ==> Impact(x) == Some(0.0)
    ensures EvidenceDelta(x) > x.policy.noiseFloor && EvidenceDelta(x) > 0.0 && Lower(x) > 0.0 ==>
      Impact(x) == Some(Lower(x) / WarnBudget(x))
    ensures EvidenceDelta(x) < -x.policy.noiseFloor && EvidenceDelta(x) < 0.0 && Upper(x) < 0.0 ==>
      Impact(x) == Some(Upper(x) / WarnBudget(x))
  {
    hide Lower, Upper, BudgetOf;
    BudgetPositive(x.policy, x.baseline.value, x.policy.warnAbs, x.policy.warnRatio);
    NegatedQuotient(-Upper(x), WarnBudget(x));
  }

  /** The sign of the impact and the direction never contradict each other. */
  lemma ImpactMatchesDirection(x: Input)
    requires x.policy.noiseFloor >= 0.0 && Impact(x).Some?
    ensures Impact(x).value > 0.0 ==> DirectionOf(x) == Regressed
    ensures Impact(x).value < 0.0 ==> DirectionOf(x) == Improved
    ensures DirectionOf(x) == Unchanged ==> Impact(x).value == 0.0
  {
    hide WithinRobustBand, Lower, Upper, Tolerance, BudgetOf;
    BudgetPositive(x.policy, x.baseline.value, x.policy.warnAbs, x.policy.warnRatio);
    var warn := WarnBudget(x);
    QuotientSign(Max(0.0, Lower(x)), warn);
    QuotientSign(Max(0.0, -Upper(x)), warn);
    QuotientSign(Max(0.0, Max(Overshoot(x), Delta(x))), warn);
    QuotientSign(Max(0.0, Max(Undershoot(x), -Delta(x))), warn);
    QuotientSign(Max(0.0, Overshoot(x)), warn);
    QuotientSign(Max(0.0, Undershoot(x)), warn);
  }

  lemma QuotientSign(a: real, b: real)
    requires a >= 0.0 && b > 0.0
    ensures a / b >= 0.0
  {
    DivisionKeepsOrder(a, 0.0, b);
    DivisionKeepsOrder(0.0, 0.0, b);
  }

  /** The lower evidence bound never exceeds the upper one. */
  lemma EvidenceBoundsInOrder(x: Input)
    requires x.policy.quantile <= 0.5
    requires HasDeltas(x) || PairedTolerance(x) >= 0.0
    ensures Lower(x) <= Upper(x)
  {
    if HasDeltas(x) {
      PercentilesInOrder(x.deltas, x.policy.quantile, 1.0 - x.policy.quantile);
    }
  }

  /** A failing row in paired mode is backed by all deltas from the evidence quantile's rank on. */
  lemma PairedFailIsBacked(x: Input)
    requires HasDeltas(x) && StatusOf(x) == Fail
    ensures CountAbove(x.deltas, FailBudget(x)) >= |x.deltas| - Rank(|x.deltas|, x.policy.quantile)
  {
    PercentileAbove(x.deltas, x.policy.quantile, FailBudget(x));
  }

  lemma FailMeans(x: Input)
    requires StatusOf(x) == Fail
    ensures Gateable(x) && ThresholdStatus(x) == Fail && ConfidenceOf(x) == ThresholdExceeded
    ensures x.baseline.value > 0.0 && x.policy.enabled && Abs(Delta(x)) > x.policy.noiseFloor
    ensures !(Suppressible(x) && WithinRobustBand(x))
  {
    hide WithinRobustBand, Lower, FailBudget, WarnBudget;
  }

  lemma DivisionKeepsOrder(a: real, b: real, c: real)
    requires c > 0.0
    ensures a / c >= b / c <==> a >= b
    ensures a / c == 0.0 <==> a == 0.0
  {
    assert a == (a / c) * c && b == (b / c) * c;
    if a / c >= b / c { assert (a / c - b / c) * c >= 0.0; }
    if a / c < b / c { assert (b / c - a / c) * c > 0.0; }
  }

  /** The median of a pair of gaps is what decides a failing paired row: it must be a regression beyond the noise. */
  lemma PairedFailKind(x: Input)
    requires x.policy.mode == Paired && StatusOf(x) == Fail
    ensures ImpactKindOf(x) == FailBoundary <==> EvidenceDelta(x) > 0.0 && Abs(EvidenceDelta(x)) > x.policy.noiseFloor
    ensures ImpactKindOf(x) == FailBoundary ==> DirectionOf(x) == Regressed
  {
    hide Lower, Upper, BudgetOf;
    FailMeans(x);
    BudgetPositive(x.policy, x.baseline.value, x.policy.warnAbs, x.policy.warnRatio);
    BudgetPositive(x.policy, x.baseline.value, x.policy.failAbs, x.policy.failRatio);
    var warn, fail := WarnBudget(x), FailBudget(x);
    DivisionKeepsOrder(Max(0.0, Lower(x)), fail, warn);
    DivisionKeepsOrder(-Max(0.0, -Upper(x)), fail, warn);
    NegatedQuotient(Max(0.0, -Upper(x)), warn);
  }

  lemma NegatedQuotient(a: real, b: real)
    requires b > 0.0
    ensures -(a / b) == (-a) / b
  {
    assert (a / b) * b == a;
  }

  /** A failing row outside paired mode lies on the fail boundary unless its increase is below the smallest budget. */
  lemma UnpairedFailKind(x: Input)
    requires x.policy.mode != Paired && StatusOf(x) == Fail
    requires RobustTolerance(x) >= 0.0 && CurrentTolerance(x) >= 0.0
    ensures ImpactKindOf(x) == FailBoundary <==> Delta(x) >= EPSILON
    ensures ImpactKindOf(x) == FailBoundary ==> DirectionOf(x) == Regressed
  {
    hide RobustTolerance, CurrentTolerance, WithinRobustBand, ConfidenceOf, StatusOf, Gateable;
    FailMeans(x);
    BudgetPositive(x.policy, x.baseline.value, x.policy.warnAbs, x.policy.warnRatio);
    BudgetPositive(x.policy, x.baseline.value, x.policy.failAbs, x.policy.failRatio);
    var warn, fail := WarnBudget(x), FailBudget(x);
    UnpairedFailDelta(x);
    DivisionKeepsOrder(Delta(x), fail, warn);
    DivisionKeepsOrder(-Max(0.0, Max(Undershoot(x), -Delta(x))), fail, warn);
    NegatedQuotient(Max(0.0, Max(Undershoot(x), -Delta(x))), warn);
    NegatedQuotient(Max(0.0, Undershoot(x)), warn);
    DivisionKeepsOrder(-Max(0.0, Undershoot(x)), fail, warn);
  }

  /** An increase that fails exceeds every part of the fail budget but the smallest budget itself. */
  lemma UnpairedFailDelta(x: Input)
    requires x.policy.mode != Paired && StatusOf(x) == Fail
    ensures Delta(x) >= FailBudget(x) <==> Delta(x) >= EPSILON
  {
    hide WithinRobustBand;
    FailMeans(x);
    var b, r := x.baseline.value, x.policy.failRatio;
    assert b * (r - 1.0) == b * r - b;
    assert Scaled(b, r - 1.0) < Delta(x);
  }

  /** An unpaired row that moves beyond the noise and the bands has its direction from the move alone. */
  lemma DirectionIs(x: Input)
    requires x.baseline.value > 0.0
    ensures x.policy.mode != Paired ==>
      var still := Abs(x.current.value - x.baseline.value) <= x.policy.noiseFloor
        || (x.policy.mode == Historical && x.kind != Deterministic && WithinRobustBand(x));
      && (DirectionOf(x) == Unchanged <==> still)
      && (DirectionOf(x) == Improved <==> !still && x.current.value < x.baseline.value)
      && (DirectionOf(x) == Regressed <==> !still && x.current.value >= x.baseline.value)
    ensures x.policy.mode == Paired ==>
      var still := Abs(EvidenceDelta(x)) <= x.policy.noiseFloor || Lower(x) <= 0.0 <= Upper(x);
      && (DirectionOf(x) == Unchanged <==> still)
      && (DirectionOf(x) == Improved <==> !still && EvidenceDelta(x) < 0.0)
      && (DirectionOf(x) == Regressed <==> !still && EvidenceDelta(x) >= 0.0)
  {
    hide WithinRobustBand, Lower, Upper;
  }

  /** Where a row that alarms lies is decided by its move against the two budgets. */
  lemma AlarmKindIs(x: Input)
    requires x.policy.mode != Paired && (StatusOf(x) == Fail || StatusOf(x) == Warn) && Delta(x) != 0.0
    requires RobustTolerance(x) >= 0.0 && CurrentTolerance(x) >= 0.0
    ensures var move := x.current.value - x.baseline.value;
      && (ImpactKindOf(x) == FailBoundary <==> move > 0.0 && move >= FailBudget(x))
      && (ImpactKindOf(x) == WarnBoundary <==> WarnBudget(x) <= move < FailBudget(x))
      && (ImpactKindOf(x) == BelowWarnBoundary <==> 0.0 < move < WarnBudget(x) && move < FailBudget(x))
      && (ImpactKindOf(x) == Improvement <==> move < 0.0)
  {
    hide RobustTolerance, CurrentTolerance, WithinRobustBand, StatusOf, Gateable, BudgetOf;
    AlarmMeans(x);
    ImpactIs(x);
    BudgetPositive(x.policy, x.baseline.value, x.policy.warnAbs, x.policy.warnRatio);
    BudgetPositive(x.policy, x.baseline.value, x.policy.failAbs, x.policy.failRatio);
    var warn, fail := WarnBudget(x), FailBudget(x);
    DivisionKeepsOrder(Delta(x), fail, warn);
    DivisionKeepsOrder(Delta(x), warn, warn);
    DivisionKeepsOrder(Delta(x), 0.0, warn);
    NegatedQuotient(-Delta(x), warn);
    assert warn / warn == 1.0 && 0.0 / warn == 0.0;
    DivisionKeepsOrder(0.0, fail, warn);
  }

  lemma AlarmMeans(x: Input)
    requires StatusOf(x) == Fail || StatusOf(x) == Warn
    ensures ConfidenceOf(x) == ThresholdExceeded && x.policy.enabled && x.baseline.value > 0.0
    ensures Abs(Delta(x)) > x.policy.noiseFloor && !(Suppressible(x) && WithinRobustBand(x))
  {
    hide WithinRobustBand, Lower, FailBudget, WarnBudget;
  }

  /** The confidence of a gated row beyond the noise, by whether it alarms and why it does not. */
  lemma ConfidenceIs(x: Input)
    requires Gateable(x) && Abs(x.current.value - x.baseline.value) > x.policy.noiseFloor
    ensures ConfidenceOf(x) == ThresholdExceeded <==> StatusOf(x) == Fail || StatusOf(x) == Warn
    ensures ConfidenceOf(x) == PairedUncertain <==>
      x.policy.mode == Paired && Lower(x) <= WarnBudget(x) && Lower(x) <= FailBudget(x)
      && EvidenceDelta(x) > WarnBudget(x)
    ensures ConfidenceOf(x) == InRobustBand <==>
      && x.policy.mode == Historical && x.kind != Deterministic && WithinRobustBand(x)
      && (Exceeds(x, x.policy.failAbs, x.policy.failRatio) || Exceeds(x, x.policy.warnAbs, x.policy.warnRatio))
  {
    hide WithinRobustBand, Lower, FailBudget, WarnBudget;
  }

  /** The reason a row cannot be gated is the first of these that applies. */
  lemma ReasonIs(x: Input)
    ensures GateReasonOf(x) == Disabled <==> !x.policy.enabled
    ensures GateReasonOf(x) == MissingBaseline <==> x.policy.enabled && x.baseline.value <= 0.0
    ensures GateReasonOf(x) == LowBaselineCount <==>
      && x.policy.enabled && x.baseline.value > 0.0
      && x.policy.mode != Paired && x.baselineSources < x.policy.minBaselineSources
    ensures GateReasonOf(x) == MissingPairedDelta ==>
      && x.policy.mode == Paired && x.paired.median.None?
      && x.currentSamples >= x.policy.minCurrentSamples && x.pairedSamples >= x.policy.minPairedSamples
  {
  }

  /** The moves that the default policies call noise, whichever way they go. */
  lemma DefaultNoise(x: Input, metric: string, unit: string)
    requires x.policy == DefaultPolicy(metric, unit) && x.baseline.value > 0.0
    ensures var noise :=
        if metric == "nix.closure.nar_size" || metric == "nix.closure.bucket.nar_size" then 10485760.0
        else if metric == "nix.closure.path_count" then 10.0
        else if unit == "seconds" then 0.1 else 0.0;
      ConfidenceOf(x) == WithinNoise <==>
        x.baseline.value - noise <= x.current.value <= x.baseline.value + noise
  {
  }

  ghost predicate Takes<T>(own: Option<T>, default: T, taken: T) {
    own == Some(taken) || (own.None? && taken == default)
  }

  /** Whatever an observation's own policy sets holds, and nothing else departs from the default. */
  lemma OverridesTaken(metric: string, unit: string, o: Overrides)
    ensures var d, p := DefaultPolicy(metric, unit), ObservationPolicy(metric, unit, o);
      && Takes(o.enabled, d.enabled, p.enabled) && Takes(o.mode, d.mode, p.mode)
      && Takes(o.noiseFloor, d.noiseFloor, p.noiseFloor) && Takes(o.quantile, d.quantile, p.quantile)
      && Takes(o.warnAbs, d.warnAbs, p.warnAbs) && Takes(o.warnRatio, d.warnRatio, p.warnRatio)
      && Takes(o.failAbs, d.failAbs, p.failAbs) && Takes(o.failRatio, d.failRatio, p.failRatio)
      && Takes(o.toleranceAbs, d.toleranceAbs, p.toleranceAbs)
      && Takes(o.toleranceRatio, d.toleranceRatio, p.toleranceRatio)
      && Takes(o.minBaselineSources, d.minBaselineSources, p.minBaselineSources)
      && Takes(o.minCurrentSamples, d.minCurrentSamples, p.minCurrentSamples)
      && Takes(o.minPairedSamples, d.minPairedSamples, p.minPairedSamples)
  {
  }

  /** What the default policies tolerate beside their thresholds, without a recorded spread. */
  lemma DefaultTolerances(metric: string, unit: string, value: real)
    requires value > 0.0
    ensures var p := DefaultPolicy(metric, unit);
      var tolerance := Tolerance(p, value, None, 0.0);
      && (metric == "nix.closure.nar_size" ==> tolerance == Max(10485760.0, value * 0.02))
      && (metric == "nix.closure.bucket.nar_size" ==> tolerance == Max(10485760.0, value * 0.05))
      && (metric == "nix.closure.path_count" ==> tolerance == Max(10.0, value * 0.02))
      && (!IsSize(metric) && unit == "seconds" ==> tolerance == Max(0.25, value * 0.10))
      && (!IsSize(metric) && unit != "seconds" ==> tolerance == Max(1.0, value * 0.10))
      && p.quantile == 0.25 && p.minPairedSamples == (if unit == "seconds" then 5 else 0)
  {
  }

  // ----- Statistics of observations -----

  lemma ToleranceNotNegative(policy: Policy, value: real, mad: Option<real>, iqr: real)
    requires Or(mad, 0.0) >= 0.0
    ensures Tolerance(policy, value, mad, iqr) >= 0.0 && Tolerance(policy, value, mad, iqr) >= policy.noiseFloor
  {
  }

  /** A side summarised from its recorded values. */
  function Summarise(values: seq<real>): Sample
    requires values != []
  {
    var median := Median(values).value;
    Sample(median, Percentile(values, 0.25), Percentile(values, 0.75), Median(Distances(values, median)))
  }

  /** The baseline of a paired comparison has no spread of its own. */
  function PairedBaseline(value: real): Sample {
    Sample(value, Some(value), Some(value), Some(0.0))
  }

  /** A side is summarised by its median, its quartiles and the median of its distances from the median. */
  lemma SummaryIs(values: seq<real>, distances: seq<real>)
    requires values != [] && |distances| == |values|
    requires forall i | 0 <= i < |values| ::
      distances[i] == if values[i] >= Median(values).value then values[i] - Median(values).value
                      else Median(values).value - values[i]
    ensures var s := Summarise(values);
      && Some(s.value) == Median(values) && s.mad == Median(distances)
      && s.p25.Some? && IsNth(values, Rank(|values|, 0.25), s.p25.value)
      && s.p75.Some? && IsNth(values, Rank(|values|, 0.75), s.p75.value)
  {
    hide IsNth, Percentile, Median, Rank;
    PercentileIs(values, 0.25);
    PercentileIs(values, 0.75);
    MedianExists(values);
    assert Distances(values, Median(values).value) == distances;
  }

  lemma MedianExists(values: seq<real>)
    requires values != []
    ensures Median(values).Some?
  {
    var _, _ := MedianIs(values);
  }

  /** A paired baseline adds nothing to the tolerances of the policy. */
  lemma PairedBaselineTolerates(x: Input, value: real)
    requires x.baseline == PairedBaseline(value) && value > 0.0
    ensures RobustTolerance(x) == Max(x.policy.noiseFloor,
                                      Max(x.policy.toleranceAbs, Max(value * x.policy.toleranceRatio, 0.0)))
  {
  }

  ghost predicate Spread(s: Sample) {
    Or(s.mad, 0.0) >= 0.0
  }

  lemma SummariesSpread(values: seq<real>, value: real)
    requires values != []
    ensures Spread(Summarise(values)) && Spread(PairedBaseline(value))
  {
    DeviationNotNegative(values, Median(values).value);
  }

  /**
   * Outside paired mode every failing row is on the fail boundary once the absolute fail threshold is at least the
   * smallest budget.
   */
  lemma UnpairedFailIsBoundary(x: Input)
    requires x.policy.mode != Paired && StatusOf(x) == Fail && x.policy.failAbs >= EPSILON
    requires Spread(x.current) && Spread(x.baseline)
    ensures ImpactKindOf(x) == FailBoundary && DirectionOf(x) == Regressed
  {
    hide ConfidenceOf, WithinRobustBand, ImpactKindOf, DirectionOf, Tolerance;
    FailMeans(x);
    ToleranceNotNegative(x.policy, x.baseline.value, x.baseline.mad,
                        Iqr(x.baseline.p25, x.baseline.p75, x.baseline.value));
    ToleranceNotNegative(x.policy, x.current.value, x.current.mad, Iqr(x.current.p25, x.current.p75, x.current.value));
    UnpairedFailKind(x);
  }

  /**
   * In paired mode it suffices that the recorded median is that of the recorded deltas and the quantile is at most one
   * half.
   */
  lemma PairedFailIsBoundary(x: Input)
    requires x.policy.mode == Paired && StatusOf(x) == Fail
    requires if HasDeltas(x) then x.paired.median == Median(x.deltas) && x.policy.quantile <= 0.5
             else Or(x.paired.mad, 0.0) >= 0.0
    ensures ImpactKindOf(x) == FailBoundary && DirectionOf(x) == Regressed
  {
    hide ConfidenceOf, ImpactKindOf, DirectionOf, Tolerance, BudgetOf;
    FailMeans(x);
    BudgetPositive(x.policy, x.baseline.value, x.policy.failAbs, x.policy.failRatio);
    if HasDeltas(x) {
      MedianAboveLower(x.deltas, x.policy.quantile);
    } else {
      ToleranceNotNegative(x.policy, x.baseline.value, x.paired.mad, Iqr(x.paired.p25, x.paired.p75, EvidenceDelta(x)));
    }
    PairedFailKind(x);
  }

  /** The defaults meet what the boundary needs, so an observation's policy does unless what it sets itself does not. */
  lemma DefaultsSuffice(metric: string, unit: string, o: Overrides)
    ensures var p := ObservationPolicy(metric, unit, o);
      && (p.failAbs >= EPSILON <==> o.failAbs.None? || o.failAbs.value >= EPSILON)
      && (p.quantile <= 0.5 <==> o.quantile.None? || o.quantile.value <= 0.5)
      && (p.noiseFloor >= 0.0 <==> o.noiseFloor.None? || o.noiseFloor.value >= 0.0)
      && (o.warnAbs.None? && o.failAbs.None? ==> p.warnAbs <= p.failAbs)
      && (o.warnRatio.None? && o.failRatio.None? ==> p.warnRatio <= p.failRatio)
      && (p.mode == Paired <==> o.mode == Some(Paired))
  {
  }

  // ----- Several sources -----

  /** Each source's own median of its paired deltas. */
  function Medians(sources: seq<seq<real>>): seq<real>
    requires forall i | 0 <= i < |sources| :: sources[i] != []
  {
    seq(|sources|, i requires 0 <= i < |sources| => Median(sources[i]).value)
  }

  function Pooled(sources: seq<seq<real>>): seq<real> {
    if sources == [] then [] else Pooled(sources[..|sources| - 1]) + sources[|sources| - 1]
  }

  /** The paired part of an input is drawn from these sources: the median of their medians, and all their deltas. */
  ghost predicate DrawnFrom(x: Input, sources: seq<seq<real>>) {
    && (forall i | 0 <= i < |sources| :: sources[i] != [])
    && x.paired.median == Median(Medians(sources)) && x.deltas == Pooled(sources)
  }

  /** With one source every failing paired row is on the fail boundary. */
  lemma OneSourceFailIsBoundary(x: Input, source: seq<real>)
    requires x.policy.mode == Paired && StatusOf(x) == Fail && x.policy.quantile <= 0.5 && DrawnFrom(x, [source])
    ensures ImpactKindOf(x) == FailBoundary && DirectionOf(x) == Regressed
  {
    hide StatusOf, ImpactKindOf, DirectionOf;
    var none: seq<seq<real>> := [];
    assert [source][..0] == none && Pooled([source]) == [] + source == source;
    var m := Median(source).value;
    assert Medians([source]) == [m];
    SortOfSorted([m]);
    PairedFailIsBoundary(x);
  }

  /** With two it may look improved: the pool fails while the median of the medians is negative. */
  lemma TwoSourcesCanLookImproved()
    ensures exists x, a, b ::
      DrawnFrom(x, [a, b]) && StatusOf(x) == Fail && DirectionOf(x) == Improved && ImpactKindOf(x) != FailBoundary
  {
    var a, b := [10.0, 10.0, 10.0, 10.0], [-12.0];
    var policy := DefaultPolicy("build", "seconds").(mode := Paired, minCurrentSamples := 1, minPairedSamples := 1);
    var x := Input(OtherKind, policy, Sample(20.0, None, None, None), Sample(10.0, None, None, None), 2, 2, 5,
                   PairedSummary(Some(-1.0), None, None, None), a + b);
    TwoSourceMedians(a, b);
    var none: seq<seq<real>> := [];
    assert [a, b][..1] == [a] && [a][..0] == none && Pooled([a]) == a;
    assert DrawnFrom(x, [a, b]);
    PoolPercentiles(a, b);
    LooksImproved(x);
  }

  lemma TwoSourceMedians(a: seq<real>, b: seq<real>)
    requires a == [10.0, 10.0, 10.0, 10.0] && b == [-12.0]
    ensures Median(Medians([a, b])) == Some(-1.0)
  {
    hide Sort, Insert;
    SortOfSorted(a);
    SortOfSorted(b);
    assert Median(a) == Some(10.0) && Median(b) == Some(-12.0);
    assert Medians([a, b]) == [10.0, -12.0];
    PairSorted();
  }

  lemma PairSorted()
    ensures Sort([10.0, -12.0]) == [-12.0, 10.0]
  {
    var m := [10.0, -12.0];
    assert m[..1] == [10.0];
    SortOfSorted([10.0]);
    InsertFirst([10.0], -12.0);
  }

  lemma PoolPercentiles(a: seq<real>, b: seq<real>)
    requires a == [10.0, 10.0, 10.0, 10.0] && b == [-12.0]
    ensures Percentile(a + b, 0.25) == Some(10.0) && Percentile(a + b, 0.75) == Some(10.0)
  {
    assert (a + b)[..4] == a && (a + b)[4] == -12.0;
    SortOfSorted(a);
    InsertFirst(a, -12.0);
    assert Sort(a + b) == [-12.0] + a;
    assert Rank(5, 0.25) == 1 && Rank(5, 0.75) == 3;
  }

  lemma LooksImproved(x: Input)
    requires x.policy == DefaultPolicy("build", "seconds")
        .(mode := Paired, minCurrentSamples := 1, minPairedSamples := 1)
    requires x.current.value == 20.0 && x.baseline.value == 10.0 && x.currentSamples == 2 && x.pairedSamples == 5
    requires x.paired.median == Some(-1.0) && HasDeltas(x) && Lower(x) == 10.0 && Upper(x) == 10.0
    ensures StatusOf(x) == Fail && DirectionOf(x) == Improved && ImpactKindOf(x) != FailBoundary
  {
    hide Lower, Upper, Tolerance;
    assert FailBudget(x) == 2.0;
    PairedFailKind(x);
  }

  // ----- The report -----

  /** A measurement of the current run, with its baseline where there is one. */
  datatype Row = Unmatched(policy: Policy) | Compared(input: Input)

  function RowPolicy(r: Row): Policy {
    match r
    case Unmatched(policy) => policy
    case Compared(x) => x.policy
  }

  predicate RowGateable(r: Row) {
    r.Compared? && Gateable(r.input)
  }

  function RowReason(r: Row): GateReason {
    if r.Unmatched? then MissingBaseline else GateReasonOf(r.input)
  }

  predicate RowFails(r: Row) {
    r.Compared? && StatusOf(r.input) == Fail
  }

  predicate RowWarns(r: Row) {
    r.Compared? && StatusOf(r.input) == Warn
  }

  datatype Overall = OverallFail | OverallWarn | Partial | OverallPass

  function OverallStatus(rows: seq<Row>): Overall {
    if exists r | r in rows :: RowFails(r) then OverallFail
    else if exists r | r in rows :: RowWarns(r) then OverallWarn
    else if exists r | r in rows :: RowPolicy(r).enabled && RowReason(r) != Disabled && RowReason(r) != Eligible
      then Partial
    else OverallPass
  }

  function EnabledCount(rows: seq<Row>): nat {
    if rows == [] then 0 else EnabledCount(rows[..|rows| - 1]) + if RowPolicy(rows[|rows| - 1]).enabled then 1 else 0
  }

  function GateableCount(rows: seq<Row>): nat {
    if rows == [] then 0 else GateableCount(rows[..|rows| - 1]) + if RowGateable(rows[|rows| - 1]) then 1 else 0
  }

  datatype Readiness = Readiness(enabledCount: nat, gateableCount: nat, nonGateableCount: int, enforceable: bool)

  function ReadinessOf(rows: seq<Row>): Readiness {
    var enabled, gateable := EnabledCount(rows), GateableCount(rows);
    Readiness(enabled, gateable, enabled - gateable, enabled == gateable)
  }

  /**
   * Every gateable row is enabled, so the difference of the counts is the number of enabled rows that cannot be gated.
   */
  lemma {:induction false} CountsAgree(rows: seq<Row>)
    ensures GateableCount(rows) <= EnabledCount(rows)
    ensures GateableCount(rows) == EnabledCount(rows) <==>
      forall i | 0 <= i < |rows| && RowPolicy(rows[i]).enabled :: RowGateable(rows[i])
  {
    hide Gateable;
    if rows != [] {
      var n := |rows| - 1;
      CountsAgree(rows[..n]);
      GateableIsEnabled(rows[n]);
      if forall i | 0 <= i < n && RowPolicy(rows[..n][i]).enabled :: RowGateable(rows[..n][i]) {
        assert forall i | 0 <= i < n && RowPolicy(rows[i]).enabled :: rows[..n][i] == rows[i];
      } else {
        var i :| 0 <= i < n && RowPolicy(rows[..n][i]).enabled && !RowGateable(rows[..n][i]);
        assert rows[..n][i] == rows[i];
      }
    }
  }

  lemma GateableIsEnabled(r: Row)
    ensures RowGateable(r) ==> RowPolicy(r).enabled
  {
  }

  /**
   * Readiness never reports a negative number, and without failing or warning rows the report passes exactly when it is
   * enforceable.
   */
  lemma ReadinessIsConsistent(rows: seq<Row>)
    ensures ReadinessOf(rows).nonGateableCount >= 0
    ensures (forall r | r in rows :: !RowFails(r) && !RowWarns(r)) ==>
      (OverallStatus(rows) == OverallPass <==> ReadinessOf(rows).enforceable)
  {
    hide RowFails, RowWarns, Gateable, GateReasonOf;
    CountsAgree(rows);
    forall r: Row
      ensures RowPolicy(r).enabled ==> (RowGateable(r) <==> !(RowReason(r) != Disabled && RowReason(r) != Eligible))
    {
      ReasonFits(r);
    }
    assert forall i | 0 <= i < |rows| :: rows[i] in rows;
  }

  lemma ReasonFits(r: Row)
    ensures RowGateable(r) <==> RowReason(r) == Eligible
    ensures RowPolicy(r).enabled ==> RowReason(r) != Disabled
  {
    if r.Compared? { GateableIffEligible(r.input); }
  }

  /** The row's policy is enabled, whether or not a baseline was found for it. */
  predicate Asks(r: Row) {
    match r
    case Unmatched(policy) => policy.enabled
    case Compared(x) => x.policy.enabled
  }

  /** The report is the worst of its rows: failing before warning, and partial when an enabled row cannot be gated. */
  lemma OverallIs(rows: seq<Row>)
    ensures OverallStatus(rows) == OverallFail <==> exists r :: r in rows && RowFails(r)
    ensures OverallStatus(rows) == OverallWarn <==>
      (exists r :: r in rows && RowWarns(r)) && !exists r :: r in rows && RowFails(r)
    ensures OverallStatus(rows) == Partial <==>
      && (forall r | r in rows :: !RowFails(r) && !RowWarns(r))
      && exists r :: r in rows && Asks(r) && !RowGateable(r)
  {
    hide RowFails, RowWarns, Gateable, GateReasonOf;
    forall r: Row
      ensures RowPolicy(r).enabled ==> (RowGateable(r) <==> !(RowReason(r) != Disabled && RowReason(r) != Eligible))
    {
      ReasonFits(r);
    }
  }

  function EnabledAt(rows: seq<Row>): set<nat> {
    set i: nat | i < |rows| && Asks(rows[i])
  }

  function GateableAt(rows: seq<Row>): set<nat> {
    set i: nat | i < |rows| && RowGateable(rows[i])
  }

  /** The counts are those of the positions with an enabled, or a gateable, row. */
  lemma {:induction false} CountsAre(rows: seq<Row>)
    ensures EnabledCount(rows) == |EnabledAt(rows)|
    ensures GateableCount(rows) == |GateableAt(rows)|
  {
    hide RowGateable;
    if rows == [] {
      assert EnabledAt(rows) == {} && GateableAt(rows) == {};
    } else {
      var n := |rows| - 1;
      CountsAre(rows[..n]);
      PositionsGrow(rows, n);
    }
  }

  lemma PositionsGrow(rows: seq<Row>, n: nat)
    requires n == |rows| - 1
    ensures n !in EnabledAt(rows[..n]) && n !in GateableAt(rows[..n])
    ensures EnabledAt(rows) == EnabledAt(rows[..n]) + if Asks(rows[n]) then {n} else {}
    ensures GateableAt(rows) == GateableAt(rows[..n]) + if RowGateable(rows[n]) then {n} else {}
  {
    hide RowGateable, Asks;
    forall i: nat
      ensures i in EnabledAt(rows) <==> i in EnabledAt(rows[..n]) || (i == n && Asks(rows[n]))
      ensures i in GateableAt(rows) <==> i in GateableAt(rows[..n]) || (i == n && RowGateable(rows[n]))
    {
      assert i < n ==> rows[..n][i] == rows[i];
    }
  }

  /** Only a row that can be gated fails the report. */
  lemma OverallFailIsGated(rows: seq<Row>)
    ensures OverallStatus(rows) == OverallFail <==> exists i :: 0 <= i < |rows| && RowFails(rows[i])
    ensures forall r | RowFails(r) || RowWarns(r) :: RowGateable(r) && RowReason(r) == Eligible
  {
    forall r | RowFails(r) || RowWarns(r)
      ensures RowGateable(r) && RowReason(r) == Eligible
    {
      GateableIffEligible(r.input);
    }
  }
}
