/** Order statistics (src/pqtrust_agent/metrics/descriptive.py), over exact reals. */
module Descriptive {
  import opened Wrappers
  import opened Sorting
  import opened Counting

  datatype StatisticsError = NoObservations | ProbabilityOutOfRange

  function Ordered(values: seq<real>): (ordered: seq<real>)
    ensures |ordered| == |values|
  {
    SortPermutes(values, RealLe);
    SortBy(values, RealLe)
  }

  /** The middle observation, or the mean of the two middle ones. */
  function Centre(values: seq<real>): real
    requires values != []
  {
    var ordered, mid := Ordered(values), |values| / 2;
    if |values| % 2 == 1 then ordered[mid] else (ordered[mid-1] + ordered[mid]) / 2.0
  }

  function Median(values: seq<real>): Result<real, StatisticsError> {
    if values == [] then Err(NoObservations) else Ok(Centre(values))
  }

  /** Linear interpolation in a sorted list at a possibly fractional position. */
  function At(ordered: seq<real>, position: real): real
    requires ordered != [] && 0.0 <= position <= (|ordered| - 1) as real
  {
    var lower := position.Floor;
    if lower as real == position then ordered[lower]
    else ordered[lower] + (ordered[lower+1] - ordered[lower]) * (position - lower as real)
  }

  function Position(n: nat, probability: real): (position: real)
    requires n > 0 && 0.0 <= probability <= 1.0
    ensures 0.0 <= position <= (n - 1) as real
  {
    (n - 1) as real * probability
  }

  function QuantileOf(values: seq<real>, probability: real): real
    requires values != [] && 0.0 <= probability <= 1.0
  {
    var ordered := Ordered(values);
    if |ordered| == 1 then ordered[0] else At(ordered, Position(|values|, probability))
  }

  function Quantile(values: seq<real>, probability: real): Result<real, StatisticsError> {
    if !(0.0 <= probability <= 1.0) then Err(ProbabilityOutOfRange)
    else if values == [] then Err(NoObservations)
    else Ok(QuantileOf(values, probability))
  }

  function Abs(x: real): real { if x < 0.0 then -x else x }

  function Deviations(values: seq<real>, centre: real): (r: seq<real>)
    ensures |r| == |values| && forall k :: 0 <= k < |r| ==> r[k] == Abs(values[k] - centre) >= 0.0
  {
    seq(|values|, k requires 0 <= k < |values| => Abs(values[k] - centre))
  }

  /** Median absolute deviation from the median. */
  function Spread(values: seq<real>): real
    requires values != []
  {
    Centre(Deviations(values, Centre(values)))
  }

  function Sum(values: seq<real>): real {
    if values == [] then 0.0 else values[0] + Sum(values[1..])
  }

  // Ranks and counts.

  function AtMost(x: real): real -> bool { v => v <= x }

  function AtLeast(x: real): real -> bool { v => v >= x }

  function Exceeds(x: real): real -> bool { v => v > x }

  lemma OrderedFacts(values: seq<real>)
    ensures SortedBy(Ordered(values), RealLe) && multiset(Ordered(values)) == multiset(values)
    ensures Ascending(Ordered(values))
  {
    NumericOrders();
    SortSorted(values, RealLe);
    SortPermutes(values, RealLe);
  }

  ghost predicate Ascending(s: seq<real>) {
    forall i, j :: 0 <= i <= j < |s| ==> s[i] <= s[j]
  }

  lemma AscendingCounts(s: seq<real>, k: nat, x: real)
    requires Ascending(s) && k < |s|
    ensures s[k] <= x <==> Count(s, AtMost(x)) > k
    ensures s[k] >= x <==> Count(s, AtLeast(x)) >= |s| - k
  {
    SplitCount(s, k, AtMost(x));
    SplitCount(s, k, AtLeast(x));
    SplitCount(s, k + 1, AtMost(x));
    SplitCount(s, k + 1, AtLeast(x));
    CountAll(s[..k+1], AtMost(x));
    CountAll(s[k..], AtMost(x));
    CountAll(s[..k+1], AtLeast(x));
    CountAll(s[k..], AtLeast(x));
  }

  lemma SplitCount(s: seq<real>, k: nat, test: real -> bool)
    requires k <= |s|
    ensures Count(s, test) == Count(s[..k], test) + Count(s[k..], test)
  {
    assert s == s[..k] + s[k..];
    CountConcat(s[..k], s[k..], test);
  }

  /** The observation of rank `k` is at most `x` exactly when more than `k` observations
      are, and at least `x` exactly when at least `n - k` are. */
  lemma RankIffCount(values: seq<real>, k: nat, x: real)
    requires k < |values|
    ensures Ordered(values)[k] <= x <==> Count(values, AtMost(x)) > k
    ensures Ordered(values)[k] >= x <==> Count(values, AtLeast(x)) >= |values| - k
  {
    OrderedFacts(values);
    AscendingCounts(Ordered(values), k, x);
    CountPermutation(values, Ordered(values), AtMost(x));
    CountPermutation(values, Ordered(values), AtLeast(x));
  }

  /** Raising observations raises every rank. */
  lemma RankIsMonotone(low: seq<real>, high: seq<real>, k: nat)
    requires |low| == |high| && k < |low|
    requires forall i :: 0 <= i < |low| ==> low[i] <= high[i]
    ensures Ordered(low)[k] <= Ordered(high)[k]
  {
    var x := Ordered(high)[k];
    RankIffCount(high, k, x);
    CountPointwise(high, AtMost(x), low, AtMost(x));
    RankIffCount(low, k, x);
  }

  lemma CentreIsMonotone(low: seq<real>, high: seq<real>)
    requires |low| == |high| > 0
    requires forall i :: 0 <= i < |low| ==> low[i] <= high[i]
    ensures Centre(low) <= Centre(high)
  {
    var mid := |low| / 2;
    RankIsMonotone(low, high, mid);
    if |low| % 2 == 0 { RankIsMonotone(low, high, mid - 1); }
  }

  /** The median splits the observations: half of them are not above it and
      half of them are not below it. */
  lemma MedianSplits(values: seq<real>)
    requires values != []
    ensures 2 * Count(values, AtMost(Centre(values))) >= |values|
    ensures 2 * Count(values, AtLeast(Centre(values))) >= |values|
  {
    var m, mid := Centre(values), |values| / 2;
    OrderedFacts(values);
    RankIffCount(values, mid, m);
    RankIffCount(values, if |values| % 2 == 1 then mid else mid - 1, m);
  }

  ghost predicate Antitone(f: real -> real, values: seq<real>) {
    forall x, y :: x in values && y in values ==> (x <= y <==> f(y) <= f(x))
  }

  ghost predicate Image(f: real -> real, a: seq<real>, b: seq<real>) {
    |a| == |b| && forall i :: 0 <= i < |a| ==> b[i] == f(a[i])
  }

  lemma RankReverses(f: real -> real, a: seq<real>, b: seq<real>, k: nat)
    requires Image(f, a, b) && Antitone(f, a) && k < |a|
    ensures Ordered(b)[k] == f(Ordered(a)[|a|-1-k])
  {
    var x := Ordered(a)[|a|-1-k];
    OrderedFacts(a);
    MembersOfPermutation(Ordered(a), a);
    assert x in a;
    RankIffCount(a, |a|-1-k, x);
    CountPointwise(a, AtLeast(x), b, AtMost(f(x)));
    CountPointwise(a, AtMost(x), b, AtLeast(f(x)));
    RankIffCount(b, k, f(x));
  }

  /** An order-reversing map turns the sorted observations around. */
  lemma OrderedReverses(f: real -> real, a: seq<real>, b: seq<real>)
    requires Image(f, a, b) && Antitone(f, a)
    ensures forall k :: 0 <= k < |a| ==> Ordered(b)[k] == f(Ordered(a)[|a|-1-k])
  {
    forall k | 0 <= k < |a| ensures Ordered(b)[k] == f(Ordered(a)[|a|-1-k]) { RankReverses(f, a, b, k); }
  }

  function Negate(x: real): real { -x }

  lemma CentreOfNegation(a: seq<real>, b: seq<real>)
    requires a != [] && Image(Negate, a, b)
    ensures Centre(b) == -Centre(a)
  {
    OrderedReverses(Negate, a, b);
  }

  // Quantiles.

  lemma Interpolation(low: real, high: real, f: real, g: real)
    requires low <= high && 0.0 <= f <= g <= 1.0
    ensures low <= low + (high - low) * f <= low + (high - low) * g <= high
  {
    var gap := high - low;
    assert gap * f >= 0.0;
    assert gap * (g - f) >= 0.0;
    assert gap * (1.0 - g) >= 0.0;
  }

  lemma AtIsBracketed(ordered: seq<real>, position: real)
    requires ordered != [] && 0.0 <= position <= (|ordered| - 1) as real
    requires Ascending(ordered)
    ensures ordered[position.Floor] <= At(ordered, position)
    ensures position.Floor + 1 < |ordered| ==> At(ordered, position) <= ordered[position.Floor + 1]
  {
    var lower := position.Floor;
    if lower as real != position {
      var fraction := position - lower as real;
      Interpolation(ordered[lower], ordered[lower+1], fraction, fraction);
    }
  }

  lemma AtIsMonotone(ordered: seq<real>, p: real, q: real)
    requires ordered != [] && 0.0 <= p <= q <= (|ordered| - 1) as real
    requires Ascending(ordered)
    ensures At(ordered, p) <= At(ordered, q)
  {
    AtIsBracketed(ordered, p);
    AtIsBracketed(ordered, q);
    if p.Floor < q.Floor {
      assert ordered[p.Floor + 1] <= ordered[q.Floor];
    } else if p.Floor as real != p && q.Floor as real != q {
      var lower := p.Floor;
      Interpolation(ordered[lower], ordered[lower+1], p - lower as real, q - lower as real);
    }
  }

  lemma PositionIsMonotone(n: nat, p: real, q: real)
    requires n > 0 && 0.0 <= p <= q <= 1.0
    ensures Position(n, p) <= Position(n, q)
  {
    assert (n - 1) as real * (q - p) >= 0.0;
  }

  lemma QuantileIsMonotone(values: seq<real>, p: real, q: real)
    requires values != [] && 0.0 <= p <= q <= 1.0
    ensures QuantileOf(values, p) <= QuantileOf(values, q)
  {
    OrderedFacts(values);
    PositionIsMonotone(|values|, p, q);
    AtIsMonotone(Ordered(values), Position(|values|, p), Position(|values|, q));
  }

  /** The ends are the extreme observations, so every quantile lies between them. */
  lemma QuantileEnds(values: seq<real>)
    requires values != []
    ensures QuantileOf(values, 0.0) == Ordered(values)[0]
    ensures QuantileOf(values, 1.0) == Ordered(values)[|values|-1]
    ensures Ordered(values)[0] in values && Ordered(values)[|values|-1] in values
    ensures forall x :: x in values ==> Ordered(values)[0] <= x <= Ordered(values)[|values|-1]
  {
    OrderedFacts(values);
    MembersOfPermutation(Ordered(values), values);
    forall x | x in values ensures Ordered(values)[0] <= x <= Ordered(values)[|values|-1] {
      assert x in Ordered(values);
    }
  }

  /** The observation of rank `k` is the quantile at `k/(n-1)`. */
  lemma QuantileAtRank(values: seq<real>, k: nat)
    requires k < |values| && |values| > 1
    ensures 0.0 <= k as real / (|values| - 1) as real <= 1.0
    ensures QuantileOf(values, k as real / (|values| - 1) as real) == Ordered(values)[k]
  {
    var n := (|values| - 1) as real;
    var p := k as real / n;
    assert p * n == k as real;
    assert n * (1.0 - p) >= 0.0;
    assert Position(|values|, p) == k as real;
  }

  lemma AtReflects(a: seq<real>, b: seq<real>, position: real)
    requires a != [] && |a| == |b| && 0.0 <= position <= (|a| - 1) as real
    requires forall k :: 0 <= k < |a| ==> b[k] == -a[|a|-1-k]
    ensures At(b, (|a| - 1) as real - position) == -At(a, position)
  {
    var lower, top := position.Floor, (|a| - 1) as real;
    if lower as real == position {
      assert top - position == (|a| - 1 - lower) as real;
    } else {
      var mirrored := |a| - 2 - lower;
      assert (top - position).Floor == mirrored;
      var f := position - lower as real;
      assert top - position - mirrored as real == 1.0 - f;
      assert b[mirrored] == -a[lower+1] && b[mirrored+1] == -a[lower];
      assert At(b, top - position) == b[mirrored] + (b[mirrored+1] - b[mirrored]) * (1.0 - f);
      assert At(a, position) == a[lower] + (a[lower+1] - a[lower]) * f;
    }
  }

  /** Low quantiles of the observations are high quantiles of their negations. */
  lemma QuantileReflects(a: seq<real>, b: seq<real>, p: real)
    requires a != [] && Image(Negate, a, b) && 0.0 <= p <= 1.0
    ensures QuantileOf(b, 1.0 - p) == -QuantileOf(a, p)
  {
    OrderedReverses(Negate, a, b);
    AtReflects(Ordered(a), Ordered(b), Position(|a|, p));
    assert Position(|a|, 1.0 - p) == (|a| - 1) as real - Position(|a|, p);
  }

  lemma HalfQuantileIsMedian(values: seq<real>)
    requires values != []
    ensures QuantileOf(values, 0.5) == Centre(values)
  {
    var n, mid := |values|, |values| / 2;
    if n % 2 == 1 {
      assert Position(n, 0.5) == mid as real;
    } else {
      assert Position(n, 0.5) == mid as real - 0.5;
      assert Position(n, 0.5).Floor == mid - 1;
    }
  }

  lemma StatisticsIgnoreOrder(a: seq<real>, b: seq<real>, probability: real)
    requires multiset(a) == multiset(b)
    ensures Median(a) == Median(b) && Quantile(a, probability) == Quantile(b, probability)
  {
    NumericOrders();
    SortOfPermutation(a, b, RealLe);
    MembersOfPermutation(a, b);
  }

  // The 3-MAD rule.

  lemma SpreadIsNotNegative(values: seq<real>)
    requires values != []
    ensures Spread(values) >= 0.0
  {
    var deviations := Deviations(values, Centre(values));
    QuantileEnds(deviations);
    OrderedFacts(deviations);
    assert Ordered(deviations)[0] >= 0.0;
  }

  function IsExactly(x: real): real -> bool { v => v == x }

  lemma ZeroCentre(values: seq<real>)
    requires values != [] && forall x :: x in values ==> x >= 0.0
    ensures Centre(values) == 0.0 <==> 2 * Count(values, AtMost(0.0)) > |values|
  {
    var ordered, mid := Ordered(values), |values| / 2;
    QuantileEnds(values);
    OrderedFacts(values);
    RankIffCount(values, mid, 0.0);
    assert forall k :: 0 <= k < |values| ==> 0.0 <= ordered[0] <= ordered[k];
  }

  lemma ZeroDeviations(values: seq<real>, centre: real)
    ensures Count(Deviations(values, centre), AtMost(0.0)) == Count(values, IsExactly(centre))
  {
    var deviations := Deviations(values, centre);
    CountPointwise(values, IsExactly(centre), deviations, AtMost(0.0));
    CountPointwise(deviations, AtMost(0.0), values, IsExactly(centre));
  }

  /** The rule is undefined exactly when more than half of the observations equal the median. */
  lemma ZeroSpreadIffMajorityAtMedian(values: seq<real>)
    requires values != []
    ensures Spread(values) == 0.0 <==> 2 * Count(values, IsExactly(Centre(values))) > |values|
  {
    ZeroDeviations(values, Centre(values));
    ZeroCentre(Deviations(values, Centre(values)));
  }

  datatype Outliers =
    | UndefinedZeroMad(distinctValueCount: nat, minimum: real, maximum: real, range: real)
    | Defined(count: nat, proportion: real)

  /** The observations further than three times the spread from the median. */
  function Flagged(values: seq<real>): nat
    requires values != []
  {
    Count(Deviations(values, Centre(values)), Exceeds(3.0 * Spread(values)))
  }

  function OutlierCount3Mad(values: seq<real>): Result<Outliers, StatisticsError> {
    if values == [] then Err(NoObservations)
    else
      var spread, ordered := Spread(values), Ordered(values);
      if spread == 0.0 then
        var distinct := set x | x in ordered;
        Ok(UndefinedZeroMad(|distinct|, ordered[0], ordered[|ordered|-1], ordered[|ordered|-1] - ordered[0]))
      else
        var count := Flagged(values);
        Ok(Defined(count, count as real / |values| as real))
  }

  lemma FewExceed(values: seq<real>, m: real)
    requires m > 0.0 && 2 * Count(values, AtMost(m)) >= |values|
    ensures 2 * Count(values, Exceeds(3.0 * m)) <= |values|
  {
    CountComplement(values, AtMost(m), Exceeds(m));
    CountPointwise(values, Exceeds(3.0 * m), values, Exceeds(m));
  }

  lemma Proportion(count: nat, n: nat)
    requires n > 0 && 2 * count <= n
    ensures 0.0 <= count as real / n as real <= 0.5
  {
    var half := n as real * 0.5;
    assert count as real <= half;
    var q := count as real / n as real;
    assert q * n as real == count as real;
    assert (0.5 - q) * n as real >= 0.0;
  }

  lemma FlaggedIsAMinority(values: seq<real>)
    requires values != [] && Spread(values) > 0.0
    ensures 2 * Flagged(values) <= |values|
  {
    var deviations := Deviations(values, Centre(values));
    MedianSplits(deviations);
    FewExceed(deviations, Spread(values));
  }

  /** The rule is defined unless more than half of the observations equal the median,
      and then flags at most half of them. */
  lemma OutliersAreAMinority(values: seq<real>)
    requires values != []
    ensures OutlierCount3Mad(values).Ok?
    ensures var report := OutlierCount3Mad(values).value;
      && (report.Defined? <==> 2 * Count(values, IsExactly(Centre(values))) <= |values|)
      && (report.Defined? ==> 2 * report.count <= |values| && 0.0 <= report.proportion <= 0.5)
  {
    ZeroSpreadIffMajorityAtMedian(values);
    SpreadIsNotNegative(values);
    if Spread(values) != 0.0 {
      FlaggedIsAMinority(values);
      Proportion(Flagged(values), |values|);
    }
  }

  // The summary.

  datatype Description = Description(count: nat, minimum: real, maximum: real, mean: real, median: real, mad: real,
    p05: real, p25: real, p75: real, p95: real, p99: real)

  function Describe(values: seq<real>): Result<Description, StatisticsError> {
    if values == [] then Err(NoObservations)
    else
      var ordered := Ordered(values);
      Ok(Description(|ordered|, ordered[0], ordered[|ordered|-1], Sum(ordered) / |ordered| as real,
        Centre(ordered), Spread(ordered), QuantileOf(ordered, 0.05), QuantileOf(ordered, 0.25),
        QuantileOf(ordered, 0.75), QuantileOf(ordered, 0.95), QuantileOf(ordered, 0.99)))
  }

  lemma {:induction false} SumIsBracketed(values: seq<real>, low: real, high: real)
    requires forall k :: 0 <= k < |values| ==> low <= values[k] <= high
    ensures |values| as real * low <= Sum(values) <= |values| as real * high
  {
    if values != [] {
      SumIsBracketed(values[1..], low, high);
      var n := (|values| - 1) as real;
      assert |values| as real * low == n * low + low && |values| as real * high == n * high + high;
    }
  }

  lemma MeanIsBracketed(n: nat, sum: real, low: real, high: real)
    requires n > 0 && n as real * low <= sum <= n as real * high
    ensures low <= sum / n as real <= high
  {
    var mean := sum / n as real;
    assert sum == n as real * mean;
    assert n as real * (mean - low) >= 0.0 && n as real * (high - mean) >= 0.0;
  }

  lemma OrderedTwice(values: seq<real>)
    ensures Ordered(Ordered(values)) == Ordered(values)
    ensures values != [] ==> Centre(Ordered(values)) == Centre(values)
  {
    NumericOrders();
    SortPermutes(values, RealLe);
    SortOfPermutation(values, Ordered(values), RealLe);
  }

  lemma QuantilesAscend(values: seq<real>)
    requires values != []
    ensures Ordered(values)[0] <= QuantileOf(values, 0.05) <= QuantileOf(values, 0.25) <= Centre(values)
    ensures Centre(values) <= QuantileOf(values, 0.75) <= QuantileOf(values, 0.95)
    ensures QuantileOf(values, 0.95) <= QuantileOf(values, 0.99) <= Ordered(values)[|values|-1]
  {
    QuantileEnds(values);
    HalfQuantileIsMedian(values);
    QuantileIsMonotone(values, 0.0, 0.05);
    QuantileIsMonotone(values, 0.05, 0.25);
    QuantileIsMonotone(values, 0.25, 0.5);
    QuantileIsMonotone(values, 0.5, 0.75);
    QuantileIsMonotone(values, 0.75, 0.95);
    QuantileIsMonotone(values, 0.95, 0.99);
    QuantileIsMonotone(values, 0.99, 1.0);
  }

  lemma AscendingMean(s: seq<real>)
    requires s != [] && Ascending(s)
    ensures s[0] <= Sum(s) / |s| as real <= s[|s|-1]
  {
    assert forall k :: 0 <= k < |s| ==> s[0] <= s[k] <= s[|s|-1];
    SumIsBracketed(s, s[0], s[|s|-1]);
    MeanIsBracketed(|s|, Sum(s), s[0], s[|s|-1]);
  }

  /** The entries of a summary come in order, whatever the order of the observations. */
  lemma DescriptionIsOrdered(values: seq<real>)
    requires values != []
    ensures Describe(values).Ok?
    ensures var d := Describe(values).value;
      && d.minimum <= d.p05 <= d.p25 <= d.median <= d.p75 <= d.p95 <= d.p99 <= d.maximum
      && d.minimum <= d.mean <= d.maximum && d.mad >= 0.0
      && d.median == Centre(values) && d.minimum in values && d.maximum in values
  {
    OrderedTwice(values);
    QuantileEnds(values);
    QuantilesAscend(Ordered(values));
    OrderedFacts(values);
    AscendingMean(Ordered(values));
    SpreadIsNotNegative(Ordered(values));
  }
}
