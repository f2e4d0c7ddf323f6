/**
 * Medians and percentiles of finite samples, as the classifier's jq functions take them: sort, then index by a
 * floored rank; a median of an even number of values is the mean of the middle two. Values are exact reals.
 */
module OrderStatistics {
  import opened Common

  type Quantile = q: real | 0.0 <= q <= 1.0 witness 0.0

  ghost predicate InOrder(s: seq<real>) {
    forall i, j | 0 <= i < j < |s| :: s[i] <= s[j]
  }

  function Insert(s: seq<real>, x: real): seq<real> {
    if s == [] then [x]
    else if s[|s| - 1] <= x then s + [x]
    else Insert(s[..|s| - 1], x) + [s[|s| - 1]]
  }

  function Sort(s: seq<real>): seq<real> {
    if s == [] then [] else Insert(Sort(s[..|s| - 1]), s[|s| - 1])
  }

  lemma {:induction false} InsertKeeps(s: seq<real>, x: real)
    ensures multiset(Insert(s, x)) == multiset(s) + multiset{x}
  {
    if s != [] && s[|s| - 1] > x {
      var n := |s| - 1;
      InsertKeeps(s[..n], x);
      assert s == s[..n] + [s[n]];
    }
  }

  ghost predicate AtMost(s: seq<real>, bound: real) {
    forall i | 0 <= i < |s| :: s[i] <= bound
  }

  lemma {:induction false} InsertBounded(s: seq<real>, x: real, bound: real)
    requires AtMost(s, bound) && x <= bound
    ensures AtMost(Insert(s, x), bound)
  {
    if s != [] && s[|s| - 1] > x { InsertBounded(s[..|s| - 1], x, bound); }
  }

  lemma {:induction false} InsertSorts(s: seq<real>, x: real)
    requires InOrder(s)
    ensures InOrder(Insert(s, x))
  {
    if s != [] && s[|s| - 1] > x {
      var n := |s| - 1;
      InsertSorts(s[..n], x);
      InsertBounded(s[..n], x, s[n]);
    }
  }

  lemma {:induction false} SortSorts(s: seq<real>)
    ensures InOrder(Sort(s)) && multiset(Sort(s)) == multiset(s) && |Sort(s)| == |s|
  {
    if s != [] {
      var n := |s| - 1;
      SortSorts(s[..n]);
      InsertSorts(Sort(s[..n]), s[n]);
      InsertKeeps(Sort(s[..n]), s[n]);
      assert s == s[..n] + [s[n]];
    }
    assert |multiset(Sort(s))| == |Sort(s)| && |multiset(s)| == |s|;
  }

  function Rank(n: nat, p: Quantile): (i: nat)
    requires n > 0
    ensures i < n
  {
    RankInRange(n, p);
    (p * (n - 1) as real).Floor
  }

  lemma RankInRange(n: nat, p: Quantile)
    requires n > 0
    ensures 0 <= (p * (n - 1) as real).Floor < n
  {
    assert 0.0 <= p * (n - 1) as real <= (n - 1) as real;
  }

  /** The value of the sorted sample at the rank a quantile points to. */
  function Percentile(values: seq<real>, p: Quantile): Option<real> {
    if values == [] then None
    else
      SortSorts(values);
      Some(Sort(values)[Rank(|values|, p)])
  }

  function Median(values: seq<real>): Option<real> {
    if values == [] then None
    else
      SortSorts(values);
      var sorted, n := Sort(values), |values|;
      if n % 2 == 1 then Some(sorted[n / 2]) else Some((sorted[n / 2 - 1] + sorted[n / 2]) / 2.0)
  }

  /** How many values of the sample lie above a bound, or reach it. */
  function CountAbove(values: seq<real>, bound: real): nat {
    if values == [] then 0
    else
      var n := |values| - 1;
      CountAbove(values[..n], bound) + if values[n] > bound then 1 else 0
  }

  lemma {:induction false} CountConcat(a: seq<real>, b: seq<real>, bound: real)
    ensures CountAbove(a + b, bound) == CountAbove(a, bound) + CountAbove(b, bound)
  {
    if b == [] {
      assert a + b == a;
    } else {
      assert (a + b)[..|a + b| - 1] == a + b[..|b| - 1];
      CountConcat(a, b[..|b| - 1], bound);
    }
  }

  lemma {:induction false} InsertCounts(s: seq<real>, x: real, bound: real)
    ensures CountAbove(Insert(s, x), bound) == CountAbove(s, bound) + if x > bound then 1 else 0
  {
    if s != [] && s[|s| - 1] > x {
      InsertCounts(s[..|s| - 1], x, bound);
      assert (Insert(s[..|s| - 1], x) + [s[|s| - 1]])[..|Insert(s[..|s| - 1], x)|] == Insert(s[..|s| - 1], x);
    } else {
      assert (s + [x])[..|s|] == s;
    }
  }

  lemma {:induction false} SortCounts(s: seq<real>, bound: real)
    ensures CountAbove(Sort(s), bound) == CountAbove(s, bound)
  {
    if s != [] {
      SortCounts(s[..|s| - 1], bound);
      InsertCounts(Sort(s[..|s| - 1]), s[|s| - 1], bound);
    }
  }

  lemma {:induction false} AllAbove(s: seq<real>, bound: real)
    requires forall i | 0 <= i < |s| :: s[i] > bound
    ensures CountAbove(s, bound) == |s|
  {
    if s != [] { AllAbove(s[..|s| - 1], bound); }
  }

  /** The value with r values of the sample before it: it exceeds just the bounds that all from it on exceed. */
  ghost predicate IsNth(values: seq<real>, r: int, x: real) {
    0 <= r < |values| && forall bound :: x > bound <==> CountAbove(values, bound) >= |values| - r
  }

  lemma SortedNth(values: seq<real>, r: nat)
    requires r < |values|
    ensures |Sort(values)| == |values| && IsNth(values, r, Sort(values)[r])
  {
    hide Sort;
    SortSorts(values);
    forall bound
      ensures Sort(values)[r] > bound <==> CountAbove(values, bound) >= |values| - r
    {
      SortCounts(values, bound);
      if Sort(values)[r] > bound {
        SortedAbove(Sort(values), r, bound);
      } else {
        SortedNotAbove(Sort(values), r, bound);
      }
    }
  }

  /** A percentile is the value at the floored rank. */
  lemma PercentileIs(values: seq<real>, p: Quantile)
    requires values != []
    ensures Percentile(values, p).Some?
    ensures IsNth(values, Rank(|values|, p), Percentile(values, p).value)
    ensures Rank(|values|, p) == (p * (|values| - 1) as real).Floor
  {
    RankInRange(|values|, p);
    SortedNth(values, Rank(|values|, p));
  }

  /** The median is the mean of the middle two values, which are one and the same when their number is odd. */
  lemma MedianIs(values: seq<real>) returns (low: real, high: real)
    requires values != []
    ensures IsNth(values, (|values| - 1) / 2, low) && IsNth(values, |values| / 2, high)
    ensures Median(values) == Some((low + high) / 2.0)
  {
    hide IsNth;
    SortSorts(values);
    SortedNth(values, |values| / 2);
    SortedNth(values, (|values| - 1) / 2);
    low, high := Sort(values)[(|values| - 1) / 2], Sort(values)[|values| / 2];
  }

  /** When a percentile exceeds a bound, so do all values from its rank on. */
  lemma PercentileAbove(values: seq<real>, p: Quantile, bound: real)
    requires values != [] && Percentile(values, p).value > bound
    ensures CountAbove(values, bound) >= |values| - Rank(|values|, p)
  {
    SortedNth(values, Rank(|values|, p));
  }

  lemma {:induction false} NoneAbove(s: seq<real>, bound: real)
    requires AtMost(s, bound)
    ensures CountAbove(s, bound) == 0
  {
    if s != [] { NoneAbove(s[..|s| - 1], bound); }
  }

  lemma {:induction false} CountAtMost(s: seq<real>, bound: real)
    ensures CountAbove(s, bound) <= |s|
  {
    if s != [] { CountAtMost(s[..|s| - 1], bound); }
  }

  lemma SortedNotAbove(sorted: seq<real>, r: nat, bound: real)
    requires InOrder(sorted) && r < |sorted| && sorted[r] <= bound
    ensures CountAbove(sorted, bound) < |sorted| - r
  {
    hide CountAbove;
    assert sorted == sorted[..r + 1] + sorted[r + 1..];
    CountConcat(sorted[..r + 1], sorted[r + 1..], bound);
    NoneAbove(sorted[..r + 1], bound);
    CountAtMost(sorted[r + 1..], bound);
  }

  lemma SortedAbove(sorted: seq<real>, r: nat, bound: real)
    requires InOrder(sorted) && r < |sorted| && sorted[r] > bound
    ensures CountAbove(sorted, bound) >= |sorted| - r
  {
    hide CountAbove;
    assert sorted == sorted[..r] + sorted[r..];
    CountConcat(sorted[..r], sorted[r..], bound);
    AllAbove(sorted[r..], bound);
  }

  lemma FloorGrows(a: real, b: real)
    requires a <= b
    ensures a.Floor <= b.Floor
  {
  }

  lemma RankGrows(n: nat, p: Quantile, q: Quantile)
    requires n > 0 && p <= q
    ensures Rank(n, p) <= Rank(n, q)
  {
    var m := (n - 1) as real;
    assert (q - p) * m >= 0.0;
    assert q * m - p * m == (q - p) * m;
    FloorGrows(p * m, q * m);
  }

  lemma PercentilesInOrder(values: seq<real>, p: Quantile, q: Quantile)
    requires values != [] && p <= q
    ensures Percentile(values, p).value <= Percentile(values, q).value
  {
    SortSorts(values);
    RankGrows(|values|, p, q);
  }

  /** No percentile below the half exceeds the median. */
  lemma MedianAboveLower(values: seq<real>, p: Quantile)
    requires values != [] && p <= 0.5
    ensures Percentile(values, p).value <= Median(values).value
  {
    hide Sort, Rank;
    SortSorts(values);
    var n := |values|;
    RankGrows(n, p, 0.5);
    HalfRank(n);
    var r := Rank(n, p);
    assert Sort(values)[r] <= Sort(values)[n / 2];
    if n % 2 == 0 { assert Sort(values)[r] <= Sort(values)[n / 2 - 1]; }
  }

  lemma HalfRank(n: nat)
    requires n > 0
    ensures Rank(n, 0.5) == (n - 1) / 2
  {
    var m := n - 1;
    assert 0.5 * m as real == (m as real) / 2.0;
    if m % 2 == 0 {
      assert m == 2 * (m / 2) && (m as real) / 2.0 == (m / 2) as real;
    } else {
      assert m == 2 * (m / 2) + 1 && (m as real) / 2.0 == (m / 2) as real + 0.5;
    }
  }

  lemma {:induction false} SortOfSorted(s: seq<real>)
    requires InOrder(s)
    ensures Sort(s) == s
  {
    if s != [] {
      SortOfSorted(s[..|s| - 1]);
      assert s == s[..|s| - 1] + [s[|s| - 1]];
    }
  }

  lemma {:induction false} InsertFirst(s: seq<real>, x: real)
    requires forall i | 0 <= i < |s| :: s[i] > x
    ensures Insert(s, x) == [x] + s
  {
    if s != [] {
      InsertFirst(s[..|s| - 1], x);
      assert s == s[..|s| - 1] + [s[|s| - 1]];
    }
  }

  function Abs(x: real): real {
    if x < 0.0 then -x else x
  }

  /** Distances from a centre, whose median is never negative. */
  function Distances(values: seq<real>, centre: real): seq<real> {
    seq(|values|, i requires 0 <= i < |values| => Abs(values[i] - centre))
  }

  lemma DeviationNotNegative(values: seq<real>, centre: real)
    requires values != []
    ensures Median(Distances(values, centre)).value >= 0.0
  {
    var d := Distances(values, centre);
    SortSorts(d);
    forall i | 0 <= i < |d|
      ensures Sort(d)[i] >= 0.0
    {
      assert Sort(d)[i] in multiset(Sort(d));
      assert Sort(d)[i] in d;
    }
  }
}
