/** Deriving the classifier's thresholds from measured samples (calibrate.py). The standard deviation is only
    ever compared, so outlier removal compares squares; where its value is stored, the square root is a
    parameter. */
module Calibration {
  import opened Options
  import SW = SlidingWindows

  // ---------- outlier removal ----------

  function Mean(values: seq<real>): real
    requires values != []
  {
    SW.Sum(values) / |values| as real
  }

  function Square(x: real): real { x * x }

  function Product(x: real, y: real): real { x * y }

  function SquaredDeviations(values: seq<real>, mean: real): real {
    if values == [] then 0.0
    else SquaredDeviations(values[..|values| - 1], mean) + Square(values[|values| - 1] - mean)
  }

  /** Sum of squared deviations over n - 1. */
  function Variance(values: seq<real>): real
    requires |values| > 1
  {
    SquaredDeviations(values, Mean(values)) / (|values| - 1) as real
  }

  /** The values whose squared distance from `mean` is at most `limit`, in order. */
  function Within(values: seq<real>, mean: real, limit: real): seq<real> {
    if values == [] then []
    else
      var last := values[|values| - 1];
      Within(values[..|values| - 1], mean, limit) + if Square(last - mean) <= limit then [last] else []
  }

  /** Drop values more than two standard deviations from the mean. */
  function RemoveOutliers(values: seq<real>): seq<real> {
    if |values| < 4 || Variance(values) == 0.0 then values
    else Within(values, Mean(values), 4.0 * Variance(values))
  }

  lemma SquareNotNegative(x: real)
    ensures Square(x) >= 0.0
  {
  }

  lemma {:induction false} WithinSize(values: seq<real>, mean: real, limit: real)
    ensures |Within(values, mean, limit)| <= |values|
  {
    if values != [] { WithinSize(values[..|values| - 1], mean, limit); }
  }

  /** How many values are dropped. */
  function Dropped(values: seq<real>, mean: real, limit: real): nat {
    WithinSize(values, mean, limit);
    |values| - |Within(values, mean, limit)|
  }

  /** Each dropped value contributes more than `limit` to the squared deviations. */
  lemma {:induction false} DroppedContribute(values: seq<real>, mean: real, limit: real)
    requires limit >= 0.0
    ensures SquaredDeviations(values, mean) >= SW.Times(Dropped(values, mean, limit), limit)
    ensures Dropped(values, mean, limit) > 0 ==>
              SquaredDeviations(values, mean) > SW.Times(Dropped(values, mean, limit), limit)
  {
    if values != [] {
      DroppedContribute(values[..|values| - 1], mean, limit);
      SquareNotNegative(values[|values| - 1] - mean);
    }
  }

  lemma Cancel(a: real, b: real, v: real)
    requires v > 0.0 && a * v > b * v
    ensures a > b
  {
    if a <= b { ScaledMonotone(a, b, v); }
  }

  lemma DivideBy(s: real, c: real, d: real)
    requires c > 0.0 && s > d * (4.0 * (s / c)) && d >= 0.0 && s > 0.0
    ensures 4.0 * d < c
  {
    var v := s / c;
    assert s == v * c;
    assert v > 0.0;
    assert c * v > (4.0 * d) * v;
    Cancel(c, 4.0 * d, v);
  }

  /** Of n >= 4 values, fewer than a quarter of n - 1 are dropped, however they are distributed. */
  lemma OutliersAreFew(values: seq<real>)
    requires |values| >= 4
    ensures |RemoveOutliers(values)| <= |values|
    ensures 4 * (|values| - |RemoveOutliers(values)|) < |values| - 1
  {
    var mean, limit, c := Mean(values), 4.0 * Variance(values), (|values| - 1) as real;
    if Variance(values) != 0.0 {
      DeviationsNotNegative(values, mean);
      assert Variance(values) > 0.0 by { QuotientPositive(SquaredDeviations(values, mean), c); }
      var d := Dropped(values, mean, limit);
      if d > 0 {
        DroppedContribute(values, mean, limit);
        SW.TimesIsProduct(d, limit);
        DivideBy(SquaredDeviations(values, mean), c, d as real);
      }
    }
  }

  lemma {:induction false} DeviationsNotNegative(values: seq<real>, mean: real)
    ensures SquaredDeviations(values, mean) >= 0.0
  {
    if values != [] {
      DeviationsNotNegative(values[..|values| - 1], mean);
      SquareNotNegative(values[|values| - 1] - mean);
    }
  }

  lemma QuotientPositive(s: real, c: real)
    requires s >= 0.0 && c > 0.0 && s / c != 0.0
    ensures s / c > 0.0 && s > 0.0
  {
  }

  /** The fallback for an empty cleaned list is never taken. */
  lemma CleaningLeavesSomething(values: seq<real>)
    requires values != []
    ensures RemoveOutliers(values) != []
  {
    if |values| >= 4 { OutliersAreFew(values); }
  }

  lemma {:induction false} WithinKeeps(values: seq<real>, mean: real, limit: real, v: real)
    ensures multiset(Within(values, mean, limit))[v] == if Square(v - mean) <= limit then multiset(values)[v] else 0
  {
    if values != [] {
      var front, last := values[..|values| - 1], values[|values| - 1];
      WithinKeeps(front, mean, limit, v);
      assert values == front + [last];
      assert multiset(values)[v] == multiset(front)[v] + if v == last then 1 else 0;
    }
  }

  lemma {:induction false} DeviationIsPart(values: seq<real>, mean: real, v: real)
    requires v in values
    ensures Square(v - mean) <= SquaredDeviations(values, mean)
  {
    var front, last := values[..|values| - 1], values[|values| - 1];
    DeviationsNotNegative(front, mean);
    SquareNotNegative(last - mean);
    if v != last {
      assert values == front + [last];
      DeviationIsPart(front, mean, v);
    }
  }

  lemma CompareScaled(a: real, s: real, c: real)
    requires c > 0.0
    ensures a <= 4.0 * (s / c) <==> a * c <= 4.0 * s
  {
    var q := s / c;
    assert s == q * c;
    if a <= 4.0 * q { ScaledMonotone(a, 4.0 * q, c); }
    if a > 4.0 * q { assert (a - 4.0 * q) * c > 0.0; }
  }

  /** The squared distance from the mean is at most four times the variance. */
  predicate WithinTwoDeviations(values: seq<real>, v: real)
    requires |values| > 1
  {
    Square(v - Mean(values)) * (|values| - 1) as real <= 4.0 * SquaredDeviations(values, Mean(values))
  }

  lemma LimitIsTwoDeviations(values: seq<real>, v: real)
    requires |values| > 1
    ensures Square(v - Mean(values)) <= 4.0 * Variance(values) <==> WithinTwoDeviations(values, v)
  {
    CompareScaled(Square(v - Mean(values)), SquaredDeviations(values, Mean(values)), (|values| - 1) as real);
  }

  lemma NoVarianceNoDeviation(values: seq<real>, v: real)
    requires |values| > 1 && Variance(values) == 0.0 && v in values
    ensures WithinTwoDeviations(values, v)
  {
    var mean := Mean(values);
    if SquaredDeviations(values, mean) != 0.0 {
      QuotientNotZero(SquaredDeviations(values, mean), (|values| - 1) as real);
    }
    DeviationIsPart(values, mean, v);
    LimitIsTwoDeviations(values, v);
  }

  /** A value is kept, as often as it occurs, exactly when it lies within two standard deviations of the mean;
      returning the list unchanged when the deviation is zero is the same rule. */
  lemma KeptExactlyWithinTwoDeviations(values: seq<real>, v: real)
    requires |values| >= 4
    ensures multiset(RemoveOutliers(values))[v] == if WithinTwoDeviations(values, v) then multiset(values)[v] else 0
  {
    if Variance(values) == 0.0 {
      if v in values { NoVarianceNoDeviation(values, v); }
      assert v !in values ==> multiset(values)[v] == 0;
    } else {
      LimitIsTwoDeviations(values, v);
      WithinKeeps(values, Mean(values), 4.0 * Variance(values), v);
    }
  }

  lemma QuotientNotZero(s: real, c: real)
    requires s != 0.0 && c > 0.0
    ensures s / c != 0.0
  {
  }

  // ---------- percentiles ----------

  predicate Ascending(s: seq<real>) { forall i, j :: 0 <= i < j < |s| ==> s[i] <= s[j] }

  function Insert(s: seq<real>, x: real): seq<real> {
    if s == [] || s[|s| - 1] <= x then s + [x] else Insert(s[..|s| - 1], x) + [s[|s| - 1]]
  }

  function Sorted(values: seq<real>): seq<real> {
    if values == [] then [] else Insert(Sorted(values[..|values| - 1]), values[|values| - 1])
  }

  lemma {:induction false} InsertAscends(s: seq<real>, x: real)
    requires Ascending(s)
    ensures Ascending(Insert(s, x)) && |Insert(s, x)| == |s| + 1
    ensures Insert(s, x)[|s|] == if s == [] || s[|s| - 1] <= x then x else s[|s| - 1]
  {
    if s != [] && s[|s| - 1] > x {
      var front := s[..|s| - 1];
      InsertAscends(front, x);
      AppendAscends(Insert(front, x), s[|s| - 1]);
    } else {
      AppendAscends(s, x);
    }
  }

  lemma AppendAscends(s: seq<real>, x: real)
    requires Ascending(s) && (s == [] || s[|s| - 1] <= x)
    ensures Ascending(s + [x])
  {
  }

  lemma {:induction false} InsertPermutes(s: seq<real>, x: real)
    ensures multiset(Insert(s, x)) == multiset(s) + multiset{x}
  {
    if s != [] && s[|s| - 1] > x {
      InsertPermutes(s[..|s| - 1], x);
      assert s == s[..|s| - 1] + [s[|s| - 1]];
    }
  }

  lemma {:induction false} SortedAscends(values: seq<real>)
    ensures Ascending(Sorted(values)) && |Sorted(values)| == |values|
  {
    if values != [] {
      var front := values[..|values| - 1];
      SortedAscends(front);
      InsertAscends(Sorted(front), values[|values| - 1]);
    }
  }

  /** `sorted` keeps the values, as often as they occur. */
  lemma {:induction false} SortedPermutes(values: seq<real>)
    ensures multiset(Sorted(values)) == multiset(values)
  {
    if values != [] {
      var front, last := values[..|values| - 1], values[|values| - 1];
      SortedPermutes(front);
      InsertPermutes(Sorted(front), last);
      assert front + [last] == values;
    }
  }

  datatype Stats = Stats(mean: real, stdev: real, p10: real, p90: real, n: nat)

  /** What is left of a list: all of three values or fewer, else those within two deviations. */
  lemma CleanIsKept(values: seq<real>, v: real)
    requires values != []
    ensures multiset(CleanOf(values))[v] ==
              if |values| < 4 || WithinTwoDeviations(values, v) then multiset(values)[v] else 0
  {
    CleaningLeavesSomething(values);
    if |values| >= 4 { KeptExactlyWithinTwoDeviations(values, v); }
  }

  /** What the percentiles are taken of. */
  function CleanOf(values: seq<real>): seq<real> {
    if RemoveOutliers(values) == [] then values else RemoveOutliers(values)
  }

  function StatsOf(values: seq<real>, sqrt: real -> real): Stats {
    if values == [] then Stats(0.0, 0.0, 0.0, 0.0, 0)
    else
      var clean := CleanOf(values);
      var s, n := Sorted(clean), |clean|;
      SortedAscends(clean);
      Stats(Mean(clean), if n > 1 then sqrt(Variance(clean)) else 0.0,
            s[if n / 10 > 0 then n / 10 else 0], s[if 9 * n / 10 < n - 1 then 9 * n / 10 else n - 1], n)
  }

  function CountAtLeast(values: seq<real>, t: real): nat {
    if values == [] then 0
    else CountAtLeast(values[..|values| - 1], t) + if values[|values| - 1] >= t then 1 else 0
  }

  function CountAtMost(values: seq<real>, t: real): nat {
    if values == [] then 0
    else CountAtMost(values[..|values| - 1], t) + if values[|values| - 1] <= t then 1 else 0
  }

  lemma {:induction false} CountsOfInsert(s: seq<real>, x: real, t: real)
    ensures CountAtLeast(Insert(s, x), t) == CountAtLeast(s + [x], t)
    ensures CountAtMost(Insert(s, x), t) == CountAtMost(s + [x], t)
  {
    assert (s + [x])[..|s|] == s;
    if s != [] && s[|s| - 1] > x {
      var front, last := s[..|s| - 1], s[|s| - 1];
      CountsOfInsert(front, x, t);
      assert (front + [x])[..|front|] == front;
      var r := Insert(front, x) + [last];
      assert r[..|r| - 1] == Insert(front, x);
    }
  }

  /** Sorting does not change how many values lie on either side of `t`. */
  lemma {:induction false} CountsOfSorted(values: seq<real>, t: real)
    ensures CountAtLeast(Sorted(values), t) == CountAtLeast(values, t)
    ensures CountAtMost(Sorted(values), t) == CountAtMost(values, t)
  {
    if values != [] {
      var front, last := values[..|values| - 1], values[|values| - 1];
      CountsOfSorted(front, t);
      CountsOfInsert(Sorted(front), last, t);
      var r := Sorted(front) + [last];
      assert r[..|r| - 1] == Sorted(front);
    }
  }

  lemma {:induction false} FewAbove(s: seq<real>, k: nat, t: real)
    requires Ascending(s) && k < |s| && s[k] < t
    ensures CountAtLeast(s, t) <= |s| - 1 - k
  {
    var front := s[..|s| - 1];
    if k < |front| {
      FewAbove(front, k, t);
    } else if k > 0 {
      FewAbove(front, k - 1, t);
    }
  }

  lemma {:induction false} FewBelow(s: seq<real>, k: nat, t: real)
    requires Ascending(s) && k < |s| && s[k] > t
    ensures CountAtMost(s, t) <= k
  {
    var front := s[..|s| - 1];
    if k < |front| { FewBelow(front, k, t); } else { AtMostAll(front, t); }
  }

  lemma {:induction false} AtMostAll(s: seq<real>, t: real)
    ensures CountAtMost(s, t) <= |s|
  {
    if s != [] { AtMostAll(s[..|s| - 1], t); }
  }

  /** At most a tenth of the cleaned samples lie at or above anything greater than p90. */
  lemma TenthAboveP90(values: seq<real>, sqrt: real -> real, t: real)
    requires values != [] && StatsOf(values, sqrt).p90 < t
    ensures 10 * CountAtLeast(CleanOf(values), t) <= |CleanOf(values)|
  {
    var clean := CleanOf(values);
    SortedAscends(clean);
    CountsOfSorted(clean, t);
    FewAbove(Sorted(clean), 9 * |clean| / 10, t);
  }

  lemma TenthBelowP10(values: seq<real>, sqrt: real -> real, t: real)
    requires values != [] && StatsOf(values, sqrt).p10 > t
    ensures 10 * CountAtMost(CleanOf(values), t) <= |CleanOf(values)|
  {
    var clean := CleanOf(values);
    SortedAscends(clean);
    CountsOfSorted(clean, t);
    FewBelow(Sorted(clean), |clean| / 10, t);
  }

  // ---------- what the statistics mean ----------

  /** `v` is one of the values; more than `tenths` tenths of them are at most `v`, and no more than `tenths`
      tenths are less. */
  predicate IsTenth(v: real, values: seq<real>, tenths: nat) {
    && v in values
    && 10 * CountAtMost(values, v) > tenths * |values|
    && 10 * CountAtLeast(values, v) >= (10 - tenths) * |values|
  }

  lemma {:induction false} NotBoth(values: seq<real>, v: real, w: real)
    requires v < w
    ensures CountAtMost(values, v) + CountAtLeast(values, w) <= |values|
  {
    if values != [] { NotBoth(values[..|values| - 1], v, w); }
  }

  /** Only one value is. */
  lemma TenthIsUnique(values: seq<real>, v: real, w: real, tenths: nat)
    requires IsTenth(v, values, tenths) && IsTenth(w, values, tenths)
    ensures v == w
  {
    if v < w { NotBoth(values, v, w); }
    if w < v { NotBoth(values, w, v); }
  }

  lemma {:induction false} EnoughAtMost(s: seq<real>, k: nat)
    requires Ascending(s) && k < |s|
    ensures CountAtMost(s, s[k]) >= k + 1
  {
    var front := s[..|s| - 1];
    if k < |front| {
      EnoughAtMost(front, k);
    } else if k > 0 {
      EnoughAtMost(front, k - 1);
      MoreAtMost(front, front[k - 1], s[k]);
    }
  }

  lemma {:induction false} MoreAtMost(s: seq<real>, t: real, u: real)
    requires t <= u
    ensures CountAtMost(s, t) <= CountAtMost(s, u)
  {
    if s != [] { MoreAtMost(s[..|s| - 1], t, u); }
  }

  lemma {:induction false} EnoughAtLeast(s: seq<real>, k: nat)
    requires Ascending(s) && k < |s|
    ensures CountAtLeast(s, s[k]) >= |s| - k
  {
    var front := s[..|s| - 1];
    if k < |front| { EnoughAtLeast(front, k); }
  }

  lemma RankIsTenth(values: seq<real>, k: nat, tenths: nat)
    requires k < |values| && 10 * (k + 1) > tenths * |values| && 10 * (|values| - k) >= (10 - tenths) * |values|
    ensures |Sorted(values)| == |values| && IsTenth(Sorted(values)[k], values, tenths)
  {
    SortedAscends(values);
    var s := Sorted(values);
    SortedPermutes(values);
    CountsOfSorted(values, s[k]);
    EnoughAtMost(s, k);
    EnoughAtLeast(s, k);
    assert s[k] in multiset(s);
  }

  function SumOfSquares(values: seq<real>): real {
    if values == [] then 0.0 else SumOfSquares(values[..|values| - 1]) + Square(values[|values| - 1])
  }

  lemma SquareOfDifference(x: real, m: real)
    ensures Square(x - m) == Square(x) - 2.0 * Product(m, x) + Square(m)
  {
  }

  lemma {:induction false} DeviationsByMoments(values: seq<real>, m: real)
    ensures SquaredDeviations(values, m)
         == SumOfSquares(values) - 2.0 * Product(m, SW.Sum(values)) + Product(|values| as real, Square(m))
  {
    if values != [] {
      var front, last := values[..|values| - 1], values[|values| - 1];
      DeviationsByMoments(front, m);
      SquareOfDifference(last, m);
      assert Product(m, SW.Sum(values)) == Product(m, SW.Sum(front)) + Product(m, last);
      assert Product(|values| as real, Square(m)) == Product(|front| as real, Square(m)) + Square(m);
    }
  }

  /** The variance is pinned by the moments of the values: n (n - 1) times it is n times the sum of squares
      less the square of the sum. */
  lemma VarianceByMoments(values: seq<real>)
    requires |values| > 1
    ensures
      var n := |values| as real;
      Product(n * (n - 1.0), Variance(values)) == Product(n, SumOfSquares(values)) - Square(SW.Sum(values))
  {
    var n, m, sum := |values| as real, Mean(values), SW.Sum(values);
    DeviationsByMoments(values, m);
    assert (|values| - 1) as real == n - 1.0;
    assert Variance(values) == SquaredDeviations(values, m) / (n - 1.0);
    MomentsOf(n, m, sum, SumOfSquares(values), SquaredDeviations(values, m), Variance(values));
  }

  lemma SquaresOfMean(n: real, m: real, sum: real)
    requires n * m == sum
    ensures n * (m * sum) == sum * sum && n * (n * (m * m)) == sum * sum
  {
    assert n * (m * sum) == (n * m) * sum;
    assert n * (n * (m * m)) == (n * m) * (n * m);
  }

  lemma MomentsOf(n: real, m: real, sum: real, squares: real, deviations: real, variance: real)
    requires n > 1.0 && m == sum / n && variance == deviations / (n - 1.0)
    requires deviations == squares - 2.0 * Product(m, sum) + Product(n, Square(m))
    ensures Product(n * (n - 1.0), variance) == Product(n, squares) - Square(sum)
  {
    assert n * m == sum && (n - 1.0) * variance == deviations;
    SquaresOfMean(n, m, sum);
    assert n * (n - 1.0) * variance == n * deviations;
    assert n * deviations == n * squares - 2.0 * (n * (m * sum)) + n * (n * (m * m));
  }

  /** `r` summarises the values: count, sum and deviation of those that are no outliers, and their first and
      ninth tenths; nothing but zeros for no values. */
  predicate Summarises(values: seq<real>, sqrt: real -> real, r: Stats) {
    if values == [] then r == Stats(0.0, 0.0, 0.0, 0.0, 0)
    else
      var clean := CleanOf(values);
      && r.n == |clean| > 0 && Product(r.mean, r.n as real) == SW.Sum(clean)
      && r.stdev == (if r.n > 1 then sqrt(Variance(clean)) else 0.0)
      && IsTenth(r.p10, clean, 1) && IsTenth(r.p90, clean, 9)
  }

  lemma StatsSummarise(values: seq<real>, sqrt: real -> real)
    ensures Summarises(values, sqrt, StatsOf(values, sqrt))
  {
    if values != [] {
      var clean := CleanOf(values);
      TenthRanks(|clean|);
      RankIsTenth(clean, |clean| / 10, 1);
      RankIsTenth(clean, 9 * |clean| / 10, 9);
      MeanTimesCount(clean);
      StatsAtRanks(values, sqrt);
    }
  }

  lemma TenthRanks(n: nat)
    requires n > 0
    ensures n / 10 < n && 10 * (n / 10 + 1) > n && 10 * (n - n / 10) >= 9 * n
    ensures 9 * n / 10 < n && 10 * (9 * n / 10 + 1) > 9 * n && 10 * (n - 9 * n / 10) >= n
  {
  }

  lemma MeanTimesCount(values: seq<real>)
    requires values != []
    ensures Product(Mean(values), |values| as real) == SW.Sum(values)
  {
  }

  /** Clamping the ranks into the list never acts. */
  lemma StatsAtRanks(values: seq<real>, sqrt: real -> real)
    requires values != []
    ensures
      var clean, r := CleanOf(values), StatsOf(values, sqrt);
      var n := |clean|;
      && |Sorted(clean)| == n > 0 && n / 10 < n && 9 * n / 10 < n
      && r.n == n && r.mean == Mean(clean) && r.stdev == (if n > 1 then sqrt(Variance(clean)) else 0.0)
      && r.p10 == Sorted(clean)[n / 10] && r.p90 == Sorted(clean)[9 * n / 10]
  {
    SortedAscends(CleanOf(values));
    TenthRanks(|CleanOf(values)|);
  }

  method SummariseMetric(values: seq<real>, sqrt: real -> real) returns (r: Stats)
    ensures Summarises(values, sqrt, r) && r == StatsOf(values, sqrt)
  {
    StatsSummarise(values, sqrt);
    if values == [] { return Stats(0.0, 0.0, 0.0, 0.0, 0); }
    var clean := RemoveOutliers(values);
    if clean == [] { clean := values; }
    assert clean == CleanOf(values);
    var s, n := Sorted(clean), |clean|;
    SortedAscends(clean);
    var stdev := 0.0;
    if n > 1 { stdev := sqrt(Variance(clean)); }
    var low, high := n / 10, 9 * n / 10;
    if low < 0 { low := 0; }
    if high > n - 1 { high := n - 1; }
    r := Stats(Mean(clean), stdev, s[low], s[high], n);
  }

  /** `summarise`: the statistics of every metric. */
  method Summarise(rows: seq<(string, seq<real>)>, sqrt: real -> real) returns (result: map<string, Stats>)
    requires forall i, j :: 0 <= i < j < |rows| ==> rows[i].0 != rows[j].0
    ensures forall i :: 0 <= i < |rows| ==> rows[i].0 in result && Summarises(rows[i].1, sqrt, result[rows[i].0])
    ensures forall i :: 0 <= i < |rows| ==> rows[i].0 in result && result[rows[i].0] == StatsOf(rows[i].1, sqrt)
    ensures forall m :: m in result ==> exists i :: 0 <= i < |rows| && rows[i].0 == m
  {
    result := map[];
    for k := 0 to |rows|
      invariant forall i :: 0 <= i < k ==> rows[i].0 in result && result[rows[i].0] == StatsOf(rows[i].1, sqrt)
      invariant forall m :: m in result ==> exists i :: 0 <= i < k && rows[i].0 == m
    {
      var s := SummariseMetric(rows[k].1, sqrt);
      result := result[rows[k].0 := s];
    }
    forall i | 0 <= i < |rows| ensures Summarises(rows[i].1, sqrt, result[rows[i].0]) {
      StatsSummarise(rows[i].1, sqrt);
    }
  }

  // ---------- thresholds between two groups ----------

  const BASE_GUARD: real := 0.10
  const MIN_GUARD: real := 0.10
  const MAX_GUARD: real := 0.30

  function Min(a: real, b: real): real { if b < a then b else a }

  function Max(a: real, b: real): real { if b > a then b else a }

  function AdaptiveGuardFrac(gap: real, loStdev: real, hiStdev: real): (frac: real)
    ensures MIN_GUARD <= frac <= MAX_GUARD
  {
    var noise := (loStdev + hiStdev) / 2.0;
    if gap <= 0.0 || noise <= 0.0 then BASE_GUARD
    else Max(MIN_GUARD, Min(BASE_GUARD + Min(noise / gap, 1.0) * (MAX_GUARD - BASE_GUARD), MAX_GUARD))
  }

  function Shift(gap: real, guardFrac: real): real { gap * guardFrac }

  function MidpointWithGuard(lo: real, hi: real, guardFrac: real): real {
    (lo + hi) / 2.0 + Shift(hi - lo, guardFrac)
  }

  lemma RatioMonotone(a: real, b: real, c: real)
    requires c > 0.0 && a <= b
    ensures a / c <= b / c
  {
    assert b / c - a / c == (b - a) / c;
  }

  /** More noise never narrows the guard band. */
  lemma NoiseWidensGuard(gap: real, lo: real, hi: real, lo': real, hi': real)
    requires lo + hi <= lo' + hi'
    ensures AdaptiveGuardFrac(gap, lo, hi) <= AdaptiveGuardFrac(gap, lo', hi')
  {
    var a, b := (lo + hi) / 2.0, (lo' + hi') / 2.0;
    if gap > 0.0 && a > 0.0 {
      RatioMonotone(a, b, gap);
      ScaledMonotone(Min(a / gap, 1.0), Min(b / gap, 1.0), MAX_GUARD - BASE_GUARD);
    }
  }

  lemma ScaledMonotone(a: real, b: real, c: real)
    requires a <= b && c >= 0.0
    ensures a * c <= b * c
  {
    assert (b - a) * c >= 0.0;
  }

  lemma ShiftIsShort(gap: real, guardFrac: real)
    requires gap > 0.0 && 0.0 <= guardFrac < 0.5
    ensures 0.0 <= Shift(gap, guardFrac) < gap / 2.0
  {
    assert gap * (0.5 - guardFrac) == gap / 2.0 - gap * guardFrac;
    assert gap * (0.5 - guardFrac) > 0.0;
  }

  lemma MidpointIsBetween(lo: real, hi: real, guardFrac: real)
    requires lo < hi && 0.0 <= guardFrac < 0.5
    ensures lo < MidpointWithGuard(lo, hi, guardFrac) < hi
    ensures MidpointWithGuard(lo, hi, guardFrac) >= (lo + hi) / 2.0
  {
    ShiftIsShort(hi - lo, guardFrac);
  }

  /** The low group's p90 lies below the high group's p10. */
  predicate Apart(lo: Stats, hi: Stats) { hi.p10 > lo.p90 }

  function Between(lo: Stats, hi: Stats): real {
    MidpointWithGuard(lo.p90, hi.p10, AdaptiveGuardFrac(hi.p10 - lo.p90, lo.stdev, hi.stdev))
  }

  /** The threshold is the midpoint, plus a tenth of the gap, plus a fifth of the noise between the groups, which
      counts at most as the gap. */
  function Shifted(lo: Stats, hi: Stats): real {
    var gap, noise := hi.p10 - lo.p90, (lo.stdev + hi.stdev) / 2.0;
    (lo.p90 + hi.p10) / 2.0 + 0.1 * gap + 0.2 * (if noise <= 0.0 then 0.0 else if noise <= gap then noise else gap)
  }

  lemma BetweenIsShifted(lo: Stats, hi: Stats)
    requires Apart(lo, hi)
    ensures Between(lo, hi) == Shifted(lo, hi)
  {
    var gap, noise := hi.p10 - lo.p90, (lo.stdev + hi.stdev) / 2.0;
    GuardOfNoise(gap, lo.stdev, hi.stdev);
    assert Between(lo, hi) == (lo.p90 + hi.p10) / 2.0 + gap * AdaptiveGuardFrac(gap, lo.stdev, hi.stdev);
  }

  /** The guard fraction of a gap is a tenth, plus a fifth of the part of the gap that noise makes up. */
  lemma GuardOfNoise(gap: real, loStdev: real, hiStdev: real)
    ensures gap <= 0.0 ==> AdaptiveGuardFrac(gap, loStdev, hiStdev) == 0.1
    ensures gap > 0.0 ==>
              var noise := (loStdev + hiStdev) / 2.0;
              gap * AdaptiveGuardFrac(gap, loStdev, hiStdev)
                == 0.1 * gap + 0.2 * (if noise <= 0.0 then 0.0 else if noise <= gap then noise else gap)
  {
    var noise := (loStdev + hiStdev) / 2.0;
    if gap > 0.0 && noise > 0.0 {
      var ratio := noise / gap;
      assert ratio * gap == noise;
      RatioAgainstOne(noise, gap, ratio);
      var part := Min(ratio, 1.0);
      assert AdaptiveGuardFrac(gap, loStdev, hiStdev) == 0.1 + part * 0.2;
      assert gap * (0.1 + part * 0.2) == 0.1 * gap + 0.2 * (part * gap);
    }
  }

  lemma RatioAgainstOne(noise: real, gap: real, ratio: real)
    requires gap > 0.0 && noise > 0.0 && ratio * gap == noise
    ensures ratio > 0.0 && (ratio <= 1.0 <==> noise <= gap)
  {
    if ratio <= 0.0 { ScaledMonotone(ratio, 0.0, gap); }
    if ratio <= 1.0 { ScaledMonotone(ratio, 1.0, gap); } else { SW.ScaleStrict(1.0, ratio, gap); }
  }

  /** For all sample lists and noise levels: when the groups do not overlap, the threshold lies strictly
      between them, and at most a tenth of each group's cleaned samples lies on its wrong side. */
  lemma ThresholdSeparates(lo: seq<real>, hi: seq<real>, sqrt: real -> real)
    requires lo != [] && hi != [] && Apart(StatsOf(lo, sqrt), StatsOf(hi, sqrt))
    ensures
      var t := Between(StatsOf(lo, sqrt), StatsOf(hi, sqrt));
      && StatsOf(lo, sqrt).p90 < t < StatsOf(hi, sqrt).p10
      && 10 * CountAtLeast(CleanOf(lo), t) <= |CleanOf(lo)|
      && 10 * CountAtMost(CleanOf(hi), t) <= |CleanOf(hi)|
  {
    var l, h := StatsOf(lo, sqrt), StatsOf(hi, sqrt);
    var t := Between(l, h);
    BetweenSeparates(l, h);
    TenthAboveP90(lo, sqrt, t);
    TenthBelowP10(hi, sqrt, t);
  }

  // ---------- all seven thresholds ----------

  type GroupStats = map<string, Stats>

  predicate HasMetrics(g: Option<GroupStats>) {
    g.Some? ==> "ipc" in g.value && "llc" in g.value && "ctx" in g.value && "io_wait" in g.value && "rq_wait" in g.value
  }

  /** The statistics of the five workloads, None for a skipped one, and the two fallbacks that depend on the
      hardware. */
  datatype Inputs = Inputs(
    cpu: Option<GroupStats>, mem: Option<GroupStats>, io: Option<GroupStats>, idle: Option<GroupStats>,
    contention: Option<GroupStats>, ipcCpuFallback: real, llcMemFallback: real)

  predicate Complete(x: Inputs) {
    HasMetrics(x.cpu) && HasMetrics(x.mem) && HasMetrics(x.io) && HasMetrics(x.idle) && HasMetrics(x.contention)
  }

  /** Before rounding. */
  datatype Thresholds = Thresholds(
    ipcCpu: real, ipcMem: real, llcMem: real, ctxIo: real, ipcIdle: real, ioWaitBound: real, rqWaitStarved: real)

  function BetweenOr(lo: Stats, hi: Stats, fallback: real): real {
    if Apart(lo, hi) then Between(lo, hi) else fallback
  }

  function IpcCpu(x: Inputs): real
    requires Complete(x)
  {
    if x.cpu.Some? && x.mem.Some? then
      var cpu, mem := x.cpu.value["ipc"], x.mem.value["ipc"];
      BetweenOr(mem, cpu, (cpu.mean + mem.mean) / 2.0)
    else x.ipcCpuFallback
  }

  /** ipc_mem before it is compared with ipc_cpu. */
  function RawIpcMem(x: Inputs): real
    requires Complete(x)
  {
    if x.mem.None? then 0.4
    else if x.idle.Some? then
      BetweenOr(x.idle.value["ipc"], x.mem.value["ipc"], x.mem.value["ipc"].mean * 0.7)
    else x.mem.value["ipc"].mean * 0.7
  }

  function IpcMem(x: Inputs): real
    requires Complete(x)
  {
    if RawIpcMem(x) >= IpcCpu(x) then IpcCpu(x) * 0.7 else RawIpcMem(x)
  }

  function LlcMem(x: Inputs): real
    requires Complete(x)
  {
    var t := if x.mem.Some? && x.cpu.Some? then
               var mem, cpu := x.mem.value["llc"], x.cpu.value["llc"];
               BetweenOr(cpu, mem, (mem.mean + cpu.mean) / 2.0)
             else x.llcMemFallback;
    Max(t, 0.005)
  }

  /** The threshold of a group against the idle group: half the group's mean when they overlap or when idle
      was skipped. */
  function AgainstIdle(g: Option<GroupStats>, idle: Option<GroupStats>, metric: string, fallback: real): real
    requires HasMetrics(g) && HasMetrics(idle) && metric in {"ctx", "io_wait", "rq_wait"}
  {
    if g.None? then fallback
    else if idle.Some? then BetweenOr(idle.value[metric], g.value[metric], g.value[metric].mean * 0.5)
    else g.value[metric].mean * 0.5
  }

  /** What the idle samples alone suggest for ipc_idle. */
  function IdleCeiling(s: Stats): real { s.p90 + 2.0 * s.stdev }

  function IpcIdle(x: Inputs): real
    requires Complete(x)
  {
    Max(if x.idle.Some? then Min(IdleCeiling(x.idle.value["ipc"]), RawIpcMem(x) * 0.5) else 0.05, 0.0)
  }

  function ThresholdsOf(x: Inputs): Thresholds
    requires Complete(x)
  {
    Thresholds(IpcCpu(x), IpcMem(x), LlcMem(x), Max(AgainstIdle(x.io, x.idle, "ctx", 500.0), 50.0), IpcIdle(x),
               Max(AgainstIdle(x.io, x.idle, "io_wait", 5.0), 0.1),
               Max(AgainstIdle(x.contention, x.idle, "rq_wait", 2.0), 0.1))
  }

  /** `t` lies strictly between the two groups. */
  predicate Separates(lo: Stats, hi: Stats, t: real) { lo.p90 < t < hi.p10 }

  lemma BetweenSeparates(lo: Stats, hi: Stats)
    requires Apart(lo, hi)
    ensures Separates(lo, hi, Between(lo, hi))
  {
    MidpointIsBetween(lo.p90, hi.p10, AdaptiveGuardFrac(hi.p10 - lo.p90, lo.stdev, hi.stdev));
  }

  /** One branch of `derive_thresholds` for two groups that were both measured. */
  method Separate(lo: Stats, hi: Stats, fallback: real) returns (t: real)
    ensures Apart(lo, hi) ==> Separates(lo, hi, t) && t >= (lo.p90 + hi.p10) / 2.0
    ensures !Apart(lo, hi) ==> t == fallback
    ensures t == BetweenOr(lo, hi, fallback)
  {
    if hi.p10 > lo.p90 {
      var gf := AdaptiveGuardFrac(hi.p10 - lo.p90, lo.stdev, hi.stdev);
      t := MidpointWithGuard(lo.p90, hi.p10, gf);
      MidpointIsBetween(lo.p90, hi.p10, gf);
    } else {
      t := fallback;
    }
  }

  method SeparateFromIdle(g: Option<GroupStats>, idle: Option<GroupStats>, metric: string, fallback: real)
      returns (t: real)
    requires HasMetrics(g) && HasMetrics(idle) && metric in {"ctx", "io_wait", "rq_wait"}
    ensures BothApart(idle, g, metric) ==> Separates(idle.value[metric], g.value[metric], t)
    ensures t == AgainstIdle(g, idle, metric, fallback)
  {
    if g.Some? && idle.Some? {
      t := Separate(idle.value[metric], g.value[metric], g.value[metric].mean * 0.5);
    } else if g.Some? {
      t := g.value[metric].mean * 0.5;
    } else {
      t := fallback;
    }
  }

  /** Both groups were measured, and do not overlap in the metric. */
  predicate BothApart(lo: Option<GroupStats>, hi: Option<GroupStats>, metric: string)
    requires HasMetrics(lo) && HasMetrics(hi) && metric in {"ipc", "llc", "ctx", "io_wait", "rq_wait"}
  {
    lo.Some? && hi.Some? && Apart(lo.value[metric], hi.value[metric])
  }

  /** When two groups do not overlap in a metric, the threshold, before its floor, lies strictly between. */
  predicate SeparatesUnlessFloored(lo: Option<GroupStats>, hi: Option<GroupStats>, metric: string, t: real, floor: real)
    requires HasMetrics(lo) && HasMetrics(hi) && metric in {"ipc", "llc", "ctx", "io_wait", "rq_wait"}
  {
    BothApart(lo, hi, metric) ==>
      lo.value[metric].p90 < t && (t < hi.value[metric].p10 || t == floor >= hi.value[metric].p10)
  }

  lemma FloorKeepsSeparation(lo: Stats, hi: Stats, fallback: real, floor: real)
    requires Apart(lo, hi)
    ensures
      var t := Max(BetweenOr(lo, hi, fallback), floor);
      lo.p90 < t && (t < hi.p10 || t == floor >= hi.p10)
  {
    BetweenSeparates(lo, hi);
  }

  /** What the classifier can rely on: the floors, the order of the two upper ipc thresholds, and a threshold
      strictly between any two groups that do not overlap in its metric. */
  predicate Sound(x: Inputs, r: Thresholds)
    requires Complete(x)
  {
    && r.llcMem >= 0.005 && r.ctxIo >= 50.0 && r.ipcIdle >= 0.0 && r.ioWaitBound >= 0.1 && r.rqWaitStarved >= 0.1
    && (IpcNotNegative(x) ==> r.ipcMem < r.ipcCpu || r.ipcMem == r.ipcCpu == 0.0)
    && (BothApart(x.mem, x.cpu, "ipc") ==> Separates(x.mem.value["ipc"], x.cpu.value["ipc"], r.ipcCpu))
    && (BothApart(x.idle, x.mem, "ipc") ==>
          Separates(x.idle.value["ipc"], x.mem.value["ipc"], r.ipcMem) || r.ipcMem == r.ipcCpu * 0.7)
    && SeparatesUnlessFloored(x.cpu, x.mem, "llc", r.llcMem, 0.005)
    && SeparatesUnlessFloored(x.idle, x.io, "ctx", r.ctxIo, 50.0)
    && SeparatesUnlessFloored(x.idle, x.io, "io_wait", r.ioWaitBound, 0.1)
    && SeparatesUnlessFloored(x.idle, x.contention, "rq_wait", r.rqWaitStarved, 0.1)
  }

  lemma AgainstIdleSeparates(g: Option<GroupStats>, idle: Option<GroupStats>, metric: string, fallback: real,
                             floor: real)
    requires HasMetrics(g) && HasMetrics(idle) && metric in {"ctx", "io_wait", "rq_wait"}
    ensures SeparatesUnlessFloored(idle, g, metric, Max(AgainstIdle(g, idle, metric, fallback), floor), floor)
  {
    if BothApart(idle, g, metric) {
      FloorKeepsSeparation(idle.value[metric], g.value[metric], g.value[metric].mean * 0.5, floor);
    }
  }

  lemma LlcSeparates(x: Inputs)
    requires Complete(x)
    ensures SeparatesUnlessFloored(x.cpu, x.mem, "llc", LlcMem(x), 0.005)
  {
    if BothApart(x.cpu, x.mem, "llc") {
      var cpu, mem := x.cpu.value["llc"], x.mem.value["llc"];
      FloorKeepsSeparation(cpu, mem, (mem.mean + cpu.mean) / 2.0, 0.005);
    }
  }

  lemma IpcSeparates(x: Inputs)
    requires Complete(x)
    ensures BothApart(x.mem, x.cpu, "ipc") ==> Separates(x.mem.value["ipc"], x.cpu.value["ipc"], IpcCpu(x))
    ensures BothApart(x.idle, x.mem, "ipc") ==>
              Separates(x.idle.value["ipc"], x.mem.value["ipc"], IpcMem(x)) || IpcMem(x) == IpcCpu(x) * 0.7
  {
    if BothApart(x.mem, x.cpu, "ipc") { BetweenSeparates(x.mem.value["ipc"], x.cpu.value["ipc"]); }
    if BothApart(x.idle, x.mem, "ipc") { BetweenSeparates(x.idle.value["ipc"], x.mem.value["ipc"]); }
  }

  lemma ThresholdsAreSound(x: Inputs)
    requires Complete(x)
    ensures Sound(x, ThresholdsOf(x))
  {
    if IpcNotNegative(x) { MemBelowCpu(x); }
    IpcSeparates(x);
    LlcSeparates(x);
    AgainstIdleSeparates(x.io, x.idle, "ctx", 500.0, 50.0);
    AgainstIdleSeparates(x.io, x.idle, "io_wait", 5.0, 0.1);
    AgainstIdleSeparates(x.contention, x.idle, "rq_wait", 2.0, 0.1);
  }

  /** The groups overlap in that metric: some tenth of one reaches into the other. */
  predicate Overlap(lo: Stats, hi: Stats) { hi.p10 <= lo.p90 }

  function Clamped(ipcMem: real, ipcCpu: real): real { if ipcMem >= ipcCpu then ipcCpu * 0.7 else ipcMem }

  function AtLeast(t: real, floor: real): real { if t < floor then floor else t }

  /** The threshold of a group for which there is no idle group apart from it: half its mean, and the default if
      the group itself was skipped. */
  predicate HalvesMean(g: Option<GroupStats>, idle: Option<GroupStats>, metric: string, default: real, floor: real,
                       t: real)
    requires HasMetrics(g) && HasMetrics(idle) && metric in {"ctx", "io_wait", "rq_wait"}
  {
    && (g.None? ==> t == AtLeast(default, floor))
    && (g.Some? && (idle.None? || Overlap(idle.value[metric], g.value[metric])) ==>
          t == AtLeast(g.value[metric].mean * 0.5, floor))
  }

  /** What every threshold falls back to when a workload was skipped or two groups overlap. */
  predicate FallsBack(x: Inputs, r: Thresholds)
    requires Complete(x)
  {
    && (x.cpu.None? || x.mem.None? ==> r.ipcCpu == x.ipcCpuFallback && r.llcMem == AtLeast(x.llcMemFallback, 0.005))
    && (x.cpu.Some? && x.mem.Some? ==>
          var cpu, mem := x.cpu.value, x.mem.value;
          && (Overlap(mem["ipc"], cpu["ipc"]) ==> r.ipcCpu == (cpu["ipc"].mean + mem["ipc"].mean) / 2.0)
          && (Overlap(cpu["llc"], mem["llc"]) ==>
                r.llcMem == AtLeast((mem["llc"].mean + cpu["llc"].mean) / 2.0, 0.005)))
    && (x.mem.None? ==> r.ipcMem == Clamped(0.4, r.ipcCpu))
    && (x.mem.Some? && (x.idle.None? || Overlap(x.idle.value["ipc"], x.mem.value["ipc"])) ==>
          r.ipcMem == Clamped(x.mem.value["ipc"].mean * 0.7, r.ipcCpu))
    && (x.idle.None? ==> r.ipcIdle == 0.05)
    && HalvesMean(x.io, x.idle, "ctx", 500.0, 50.0, r.ctxIo)
    && HalvesMean(x.io, x.idle, "io_wait", 5.0, 0.1, r.ioWaitBound)
    && HalvesMean(x.contention, x.idle, "rq_wait", 2.0, 0.1, r.rqWaitStarved)
  }

  /** What every threshold is when the two groups it is for are apart. */
  predicate Shifts(x: Inputs, r: Thresholds)
    requires Complete(x)
  {
    && (BothApart(x.mem, x.cpu, "ipc") ==> r.ipcCpu == Shifted(x.mem.value["ipc"], x.cpu.value["ipc"]))
    && (BothApart(x.idle, x.mem, "ipc") ==>
          r.ipcMem == Clamped(Shifted(x.idle.value["ipc"], x.mem.value["ipc"]), r.ipcCpu))
    && (BothApart(x.cpu, x.mem, "llc") ==>
          r.llcMem == AtLeast(Shifted(x.cpu.value["llc"], x.mem.value["llc"]), 0.005))
    && (BothApart(x.idle, x.io, "ctx") ==>
          r.ctxIo == AtLeast(Shifted(x.idle.value["ctx"], x.io.value["ctx"]), 50.0))
    && (BothApart(x.idle, x.io, "io_wait") ==>
          r.ioWaitBound == AtLeast(Shifted(x.idle.value["io_wait"], x.io.value["io_wait"]), 0.1))
    && (BothApart(x.idle, x.contention, "rq_wait") ==>
          r.rqWaitStarved == AtLeast(Shifted(x.idle.value["rq_wait"], x.contention.value["rq_wait"]), 0.1))
  }

  lemma ThresholdsShift(x: Inputs)
    requires Complete(x)
    ensures Shifts(x, ThresholdsOf(x))
  {
    if BothApart(x.mem, x.cpu, "ipc") { BetweenIsShifted(x.mem.value["ipc"], x.cpu.value["ipc"]); }
    if BothApart(x.idle, x.mem, "ipc") { BetweenIsShifted(x.idle.value["ipc"], x.mem.value["ipc"]); }
    if BothApart(x.cpu, x.mem, "llc") { BetweenIsShifted(x.cpu.value["llc"], x.mem.value["llc"]); }
    if BothApart(x.idle, x.io, "ctx") { BetweenIsShifted(x.idle.value["ctx"], x.io.value["ctx"]); }
    if BothApart(x.idle, x.io, "io_wait") { BetweenIsShifted(x.idle.value["io_wait"], x.io.value["io_wait"]); }
    if BothApart(x.idle, x.contention, "rq_wait") {
      BetweenIsShifted(x.idle.value["rq_wait"], x.contention.value["rq_wait"]);
    }
  }

  /** ipc_idle is p90 plus two deviations of idle, cut to half of ipc_mem before its clamp, and not negative. */
  lemma IdleIsCut(x: Inputs)
    requires Complete(x) && x.idle.Some?
    ensures
      var s, half, t := x.idle.value["ipc"], RawIpcMem(x) * 0.5, IpcIdle(x);
      && (t > 0.0 ==> t <= s.p90 + 2.0 * s.stdev && t <= half)
      && (t == s.p90 + 2.0 * s.stdev || t == half || (t == 0.0 && (s.p90 + 2.0 * s.stdev <= 0.0 || half <= 0.0)))
    ensures IpcMem(x) == Clamped(RawIpcMem(x), IpcCpu(x))
  {
  }

  lemma ThresholdsFallBack(x: Inputs)
    requires Complete(x)
    ensures FallsBack(x, ThresholdsOf(x))
  {
  }

  method DeriveThresholds(x: Inputs) returns (r: Thresholds)
    requires Complete(x)
    ensures Sound(x, r) && FallsBack(x, r) && Shifts(x, r) && r == ThresholdsOf(x)
  {
    var ipcCpu := x.ipcCpuFallback;
    if x.cpu.Some? && x.mem.Some? {
      var cpu, mem := x.cpu.value["ipc"], x.mem.value["ipc"];
      ipcCpu := Separate(mem, cpu, (cpu.mean + mem.mean) / 2.0);
    }
    var ipcMem := 0.4;
    if x.mem.Some? && x.idle.Some? {
      ipcMem := Separate(x.idle.value["ipc"], x.mem.value["ipc"], x.mem.value["ipc"].mean * 0.7);
    } else if x.mem.Some? {
      ipcMem := x.mem.value["ipc"].mean * 0.7;
    }
    var llcMem := x.llcMemFallback;
    if x.mem.Some? && x.cpu.Some? {
      var mem, cpu := x.mem.value["llc"], x.cpu.value["llc"];
      llcMem := Separate(cpu, mem, (mem.mean + cpu.mean) / 2.0);
    }
    var ctxIo := SeparateFromIdle(x.io, x.idle, "ctx", 500.0);
    var ipcIdle := 0.05;
    if x.idle.Some? {
      ipcIdle := x.idle.value["ipc"].p90 + 2.0 * x.idle.value["ipc"].stdev;
      ipcIdle := Min(ipcIdle, ipcMem * 0.5);
    }
    var ioWaitBound := SeparateFromIdle(x.io, x.idle, "io_wait", 5.0);
    var rqWaitStarved := SeparateFromIdle(x.contention, x.idle, "rq_wait", 2.0);
    if ipcMem >= ipcCpu { ipcMem := ipcCpu * 0.70; }
    llcMem := Max(llcMem, 0.005);
    ctxIo := Max(ctxIo, 50.0);
    ipcIdle := Max(ipcIdle, 0.0);
    ioWaitBound := Max(ioWaitBound, 0.1);
    rqWaitStarved := Max(rqWaitStarved, 0.1);
    r := Thresholds(ipcCpu, ipcMem, llcMem, ctxIo, ipcIdle, ioWaitBound, rqWaitStarved);
    assert r == ThresholdsOf(x);
    ThresholdsAreSound(x);
    ThresholdsShift(x);
    ThresholdsFallBack(x);
  }

  // ---------- the order of the three ipc thresholds ----------

  predicate NotNegative(s: Stats) { s.mean >= 0.0 && s.stdev >= 0.0 && s.p10 >= 0.0 && s.p90 >= 0.0 }

  /** IPC samples are never negative, and neither is the fallback. */
  predicate IpcNotNegative(x: Inputs)
    requires Complete(x)
  {
    && x.ipcCpuFallback >= 0.0
    && (x.cpu.Some? ==> NotNegative(x.cpu.value["ipc"])) && (x.mem.Some? ==> NotNegative(x.mem.value["ipc"]))
    && (x.idle.Some? ==> NotNegative(x.idle.value["ipc"]))
  }

  lemma BetweenNotNegative(lo: Stats, hi: Stats, fallback: real)
    requires NotNegative(lo) && NotNegative(hi) && fallback >= 0.0
    ensures BetweenOr(lo, hi, fallback) >= 0.0
  {
    if Apart(lo, hi) {
      MidpointIsBetween(lo.p90, hi.p10, AdaptiveGuardFrac(hi.p10 - lo.p90, lo.stdev, hi.stdev));
    }
  }

  lemma IpcThresholdsNotNegative(x: Inputs)
    requires Complete(x) && IpcNotNegative(x)
    ensures IpcCpu(x) >= 0.0 && RawIpcMem(x) >= 0.0
  {
    if x.cpu.Some? && x.mem.Some? {
      var cpu, mem := x.cpu.value["ipc"], x.mem.value["ipc"];
      BetweenNotNegative(mem, cpu, (cpu.mean + mem.mean) / 2.0);
    }
    if x.mem.Some? && x.idle.Some? {
      BetweenNotNegative(x.idle.value["ipc"], x.mem.value["ipc"], x.mem.value["ipc"].mean * 0.7);
    }
  }

  /** The ipc_mem clamp keeps ipc_mem below ipc_cpu, except that both may be zero. */
  lemma MemBelowCpu(x: Inputs)
    requires Complete(x) && IpcNotNegative(x)
    ensures IpcMem(x) < IpcCpu(x) || IpcMem(x) == IpcCpu(x) == 0.0
  {
    IpcThresholdsNotNegative(x);
  }

  /** ipc_idle is meant to stay below ipc_mem, and is capped at half of it. With idle measured it does, unless
      ipc_mem exceeded 1.4 times ipc_cpu before being clamped to 70% of it, and the idle samples reach above
      those 70%. */
  lemma IdleStaysBelowMemExactlyWhen(x: Inputs)
    requires Complete(x) && IpcNotNegative(x) && x.idle.Some?
    ensures IpcIdle(x) <= IpcMem(x) <==>
            !(IpcCpu(x) * 1.4 < RawIpcMem(x) && IpcCpu(x) * 0.7 < IdleCeiling(x.idle.value["ipc"]))
  {
    IpcThresholdsNotNegative(x);
  }

  /** With idle skipped, ipc_idle is 0.05, whatever ipc_mem is. */
  lemma SkippedIdleStaysBelowMemExactlyWhen(x: Inputs)
    requires Complete(x) && x.idle.None?
    ensures IpcIdle(x) <= IpcMem(x) <==>
            (RawIpcMem(x) < IpcCpu(x) && 0.05 <= RawIpcMem(x)) || (IpcCpu(x) <= RawIpcMem(x) && 0.05 <= IpcCpu(x) * 0.7)
  {
  }

  /** The cap at half of ipc_mem holds of the result unless ipc_mem is clamped afterwards, and the idle samples
      reach above 35% of ipc_cpu. */
  lemma IdleCapHoldsExactlyWhen(x: Inputs)
    requires Complete(x) && IpcNotNegative(x) && x.idle.Some?
    ensures IpcIdle(x) <= IpcMem(x) * 0.5 <==>
            !(0.0 < RawIpcMem(x) && IpcCpu(x) <= RawIpcMem(x) && IpcCpu(x) * 0.35 < IdleCeiling(x.idle.value["ipc"]))
  {
    IpcThresholdsNotNegative(x);
  }

  type Samples = map<string, seq<real>>

  /** What `summarise` returns for the samples of a workload. */
  function StatsOfAll(g: Option<Samples>, sqrt: real -> real): Option<GroupStats> {
    if g.None? then None else Some(map m | m in g.value :: StatsOf(g.value[m], sqrt))
  }

  function FromSamples(cpu: Option<Samples>, mem: Option<Samples>, idle: Option<Samples>, sqrt: real -> real): Inputs {
    Inputs(StatsOfAll(cpu, sqrt), StatsOfAll(mem, sqrt), None, StatsOfAll(idle, sqrt), None, 1.2, 0.02)
  }

  function Steady(v: real): Stats { Stats(v, 0.0, v, v, 1) }

  lemma OneSample(v: real, sqrt: real -> real)
    ensures StatsOf([v], sqrt) == Steady(v)
  {
    var s := [v];
    assert s[..0] == [] && SW.Sum(s) == v && RemoveOutliers(s) == s;
    assert CleanOf(s) == s && Mean(s) == v;
    assert Sorted(s[..0]) == [] && Sorted(s) == [v];
  }

  /** A workload sampled once, with that ipc and nothing else going on. */
  function OnceSampled(ipc: real): Samples {
    map["ipc" := [ipc], "llc" := [0.0], "ctx" := [0.0], "io_wait" := [0.0], "rq_wait" := [0.0]]
  }

  function OnceSampledStats(ipc: real): GroupStats {
    var z := Steady(0.0);
    map["ipc" := Steady(ipc), "llc" := z, "ctx" := z, "io_wait" := z, "rq_wait" := z]
  }

  lemma StatsOfOnce(ipc: real, sqrt: real -> real)
    ensures StatsOfAll(Some(OnceSampled(ipc)), sqrt) == Some(OnceSampledStats(ipc))
  {
    OneSample(ipc, sqrt);
    OneSample(0.0, sqrt);
    assert StatsOfAll(Some(OnceSampled(ipc)), sqrt).value == OnceSampledStats(ipc);
  }

  predicate IdleAboveMem(x: Inputs) {
    Complete(x) && IpcNotNegative(x) && IpcIdle(x) > IpcMem(x)
  }

  lemma MeasuredIdleIsAbove(x: Inputs)
    requires x == Inputs(Some(OnceSampledStats(0.1)), Some(OnceSampledStats(2.0)), None,
                         Some(OnceSampledStats(1.2)), None, 1.2, 0.02)
    ensures IdleAboveMem(x)
  {
    MidpointIsBetween(1.2, 2.0, AdaptiveGuardFrac(0.8, 0.0, 0.0));
    assert RawIpcMem(x) >= 1.6 && IpcCpu(x) == 1.05;
  }

  lemma SkippedIdleIsAbove(x: Inputs)
    requires x == Inputs(None, Some(OnceSampledStats(0.01)), None, None, None, 1.2, 0.02)
    ensures IdleAboveMem(x)
  {
    assert RawIpcMem(x) == 0.007 && IpcCpu(x) == 1.2;
  }

  /** ... derived from samples of these workloads, the other two being skipped. */
  predicate IdleAboveMemFrom(cpu: Option<Samples>, mem: Option<Samples>, idle: Option<Samples>, sqrt: real -> real) {
    IdleAboveMem(FromSamples(cpu, mem, idle, sqrt))
  }

  lemma MeasuredExample(sqrt: real -> real) returns (cpu: Option<Samples>, mem: Option<Samples>, idle: Option<Samples>)
    ensures idle.Some? && IdleAboveMemFrom(cpu, mem, idle, sqrt)
  {
    cpu, mem, idle := Some(OnceSampled(0.1)), Some(OnceSampled(2.0)), Some(OnceSampled(1.2));
    StatsOfOnce(0.1, sqrt);
    StatsOfOnce(2.0, sqrt);
    StatsOfOnce(1.2, sqrt);
    MeasuredIdleIsAbove(FromSamples(cpu, mem, idle, sqrt));
  }

  lemma SkippedExample(sqrt: real -> real) returns (mem: Option<Samples>)
    ensures IdleAboveMemFrom(None, mem, None, sqrt)
  {
    mem := Some(OnceSampled(0.01));
    StatsOfOnce(0.01, sqrt);
    SkippedIdleIsAbove(FromSamples(None, mem, None, sqrt));
  }

  /** So thresholds derived from samples can come out in the wrong order, ipc_idle above ipc_mem, with idle
      measured or not. */
  lemma IdleCanExceedMem(sqrt: real -> real)
    ensures exists cpu, mem, idle: Option<Samples> :: idle.Some? && IdleAboveMemFrom(cpu, mem, idle, sqrt)
    ensures exists cpu, mem, idle: Option<Samples> :: idle.None? && IdleAboveMemFrom(cpu, mem, idle, sqrt)
  {
    var cpu, mem, idle := MeasuredExample(sqrt);
    var slow := SkippedExample(sqrt);
  }
}
