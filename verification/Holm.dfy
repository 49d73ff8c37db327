/** Holm's correction for several tests (src/pqtrust_agent/analysis/stage9.py). */
module Holm {
  import opened Sorting
  import opened Counting
  import opened Descriptive

  function Min(x: real, y: real): real { if y < x then y else x }

  datatype Test = Test(key: string, pValue: real)

  predicate NoLarger(a: Test, b: Test) { a.pValue <= b.pValue }

  function PValue(): Test -> real { (t: Test) => t.pValue }

  function PValues(tests: seq<Test>): seq<real> { Map(PValue(), tests) }

  ghost predicate DistinctKeys(tests: seq<Test>) {
    forall i, j :: 0 <= i < j < |tests| ==> tests[i].key != tests[j].key
  }

  /** The largest of zero and the corrections of the ranks up to `k`: the loop's `running`. */
  function Running(correction: nat -> real, k: nat): real {
    Max(if k == 0 then 0.0 else Running(correction, k - 1), correction(k))
  }

  /** The largest of zero and the corrections of the candidates up to `p`. */
  function LargestUpTo(correction: real -> real, candidates: seq<real>, p: real): real {
    if candidates == [] then 0.0
    else
      var rest := LargestUpTo(correction, candidates[1..], p);
      if candidates[0] <= p then Max(rest, correction(candidates[0])) else rest
  }

  lemma {:induction false} RunningIsLeastBound(correction: nat -> real, k: nat, bound: real)
    ensures Running(correction, k) <= bound <==> bound >= 0.0 && forall j: nat :: j <= k ==> correction(j) <= bound
  {
    if k > 0 { RunningIsLeastBound(correction, k - 1, bound); }
  }

  lemma {:induction false} LargestIsLeastBound(correction: real -> real, candidates: seq<real>, p: real, bound: real)
    ensures LargestUpTo(correction, candidates, p) <= bound <==>
      bound >= 0.0 && forall q :: q in candidates && q <= p ==> correction(q) <= bound
  {
    if candidates != [] {
      LargestIsLeastBound(correction, candidates[1..], p, bound);
      assert candidates == [candidates[0]] + candidates[1..];
    }
  }

  /** `j` is the first rank of the value `q`, and the two corrections agree there. */
  ghost predicate Represents(byRank: nat -> real, byValue: real -> real, ordered: seq<real>, q: real, j: nat) {
    && j < |ordered| && ordered[j] == q && byRank(j) == byValue(q)
    && forall i :: 0 <= i < |ordered| && ordered[i] == q ==> j <= i
  }

  /** If the corrections agree on first ranks and are no larger elsewhere, so do their maxima. */
  lemma MaximaAgree(byRank: nat -> real, byValue: real -> real, ordered: seq<real>, k: nat)
    requires Ascending(ordered) && k < |ordered|
    requires forall j :: 0 <= j < |ordered| ==> byRank(j) <= Max(0.0, byValue(ordered[j]))
    requires forall q :: q in ordered ==> exists j: nat :: Represents(byRank, byValue, ordered, q, j)
    ensures Running(byRank, k) == LargestUpTo(byValue, ordered, ordered[k])
  {
    var running, largest := Running(byRank, k), LargestUpTo(byValue, ordered, ordered[k]);
    RunningIsLeastBound(byRank, k, running);
    forall q | q in ordered && q <= ordered[k] ensures byValue(q) <= running {
      var j: nat :| Represents(byRank, byValue, ordered, q, j);
      assert j <= k;
    }
    LargestIsLeastBound(byValue, ordered, ordered[k], running);
    LargestIsLeastBound(byValue, ordered, ordered[k], largest);
    forall j: nat | j <= k ensures byRank(j) <= largest {
      assert ordered[j] in ordered && ordered[j] <= ordered[k];
    }
    RunningIsLeastBound(byRank, k, largest);
  }

  // The corrections.

  /** `n * q`, as a repeated sum. */
  function Times(n: nat, q: real): real {
    if n == 0 then 0.0 else q + Times(n - 1, q)
  }

  lemma {:induction false} TimesIsProduct(n: nat, q: real)
    ensures Times(n, q) == n as real * q
  {
    if n > 0 {
      TimesIsProduct(n - 1, q);
      assert n as real * q == (n - 1) as real * q + q;
    }
  }

  function ScaledAt(ordered: seq<real>, j: nat): real {
    if j < |ordered| then Times(|ordered| - j, ordered[j]) else 0.0
  }

  function CorrectedAt(ordered: seq<real>, j: nat): real { Min(1.0, ScaledAt(ordered, j)) }

  function Corrected(values: seq<real>, q: real): real {
    Min(1.0, Times(Count(values, AtLeast(q)), q))
  }

  function Scaled(ordered: seq<real>): nat -> real { (j: nat) => ScaledAt(ordered, j) }

  /** By rank: a value is multiplied by the number of values from its rank on. */
  function ByRank(ordered: seq<real>): nat -> real { (j: nat) => CorrectedAt(ordered, j) }

  /** By value: it is multiplied by the number of values not below it. */
  function ByValue(values: seq<real>): real -> real { (q: real) => Corrected(values, q) }

  /** The adjusted value of a test, in terms that mention no rank. */
  function Adjusted(values: seq<real>, p: real): real {
    LargestUpTo(ByValue(values), values, p)
  }

  lemma {:induction false} TimesIsMonotone(a: nat, b: nat, q: real, p: real)
    requires a <= b && 0.0 <= q <= p
    ensures 0.0 <= Times(a, q) <= Times(b, p)
  {
    if a > 0 {
      TimesIsMonotone(a - 1, b - 1, q, p);
    } else if b > 0 {
      TimesIsMonotone(a, b - 1, q, p);
    }
  }

  lemma {:induction false} TimesIsNegative(n: nat, q: real)
    requires q < 0.0
    ensures Times(n, q) <= 0.0
  {
    if n > 0 { TimesIsNegative(n - 1, q); }
  }

  lemma CappedScaling(a: nat, b: nat, q: real)
    requires a <= b
    ensures Min(1.0, Times(a, q)) <= Max(0.0, Min(1.0, Times(b, q)))
  {
    if q < 0.0 { TimesIsNegative(a, q); } else { TimesIsMonotone(a, b, q, q); }
  }

  /** In a sorted list the values not below `q` are a suffix, which starts with `q`. */
  lemma FirstOfValue(ordered: seq<real>, q: real) returns (j: nat)
    requires Ascending(ordered) && q in ordered
    ensures j < |ordered| && ordered[j] == q && Count(ordered, AtLeast(q)) == |ordered| - j
    ensures forall i :: 0 <= i < |ordered| && ordered[i] == q ==> j <= i
  {
    var t :| 0 <= t < |ordered| && ordered[t] == q;
    AscendingCounts(ordered, t, q);
    j := |ordered| - Count(ordered, AtLeast(q));
    AscendingCounts(ordered, j, q);
    forall i | 0 <= i < |ordered| && ordered[i] == q ensures j <= i { AscendingCounts(ordered, i, q); }
  }

  lemma RanksAndValues(ordered: seq<real>, q: real)
    requires Ascending(ordered) && q in ordered
    ensures exists j: nat :: Represents(ByRank(ordered), ByValue(ordered), ordered, q, j)
    ensures forall i :: 0 <= i < |ordered| && ordered[i] == q ==> ByRank(ordered)(i) <= Max(0.0, ByValue(ordered)(q))
  {
    var j := FirstOfValue(ordered, q);
    assert Represents(ByRank(ordered), ByValue(ordered), ordered, q, j);
    forall i | 0 <= i < |ordered| && ordered[i] == q ensures ByRank(ordered)(i) <= Max(0.0, ByValue(ordered)(q)) {
      CappedScaling(|ordered| - i, |ordered| - j, q);
    }
  }

  /** The running maximum at a test depends on its value only. */
  lemma RunningIsAdjusted(ordered: seq<real>, k: nat)
    requires Ascending(ordered) && k < |ordered|
    ensures Running(ByRank(ordered), k) == Adjusted(ordered, ordered[k])
  {
    forall q | q in ordered ensures exists j: nat :: Represents(ByRank(ordered), ByValue(ordered), ordered, q, j) {
      RanksAndValues(ordered, q);
    }
    forall j | 0 <= j < |ordered| ensures ByRank(ordered)(j) <= Max(0.0, ByValue(ordered)(ordered[j])) {
      RanksAndValues(ordered, ordered[j]);
    }
    MaximaAgree(ByRank(ordered), ByValue(ordered), ordered, k);
  }

  /** The largest correction depends on the corrections and on which candidates there are. */
  lemma LargestIsMonotone(f: real -> real, g: real -> real, a: seq<real>, b: seq<real>, p: real, q: real)
    requires p <= q && forall x :: x in a && x <= p ==> x in b && f(x) <= g(x)
    ensures 0.0 <= LargestUpTo(f, a, p) <= LargestUpTo(g, b, q)
  {
    LargestIsLeastBound(f, a, p, LargestUpTo(f, a, p));
    LargestIsLeastBound(g, b, q, LargestUpTo(g, b, q));
    LargestIsLeastBound(f, a, p, LargestUpTo(g, b, q));
  }

  /** Listing the tests in another order changes no adjusted value. */
  lemma AdjustedIgnoresOrder(a: seq<real>, b: seq<real>, p: real)
    requires multiset(a) == multiset(b)
    ensures Adjusted(a, p) == Adjusted(b, p)
  {
    MembersOfPermutation(a, b);
    forall q ensures ByValue(a)(q) == ByValue(b)(q) { CountPermutation(a, b, AtLeast(q)); }
    LargestIsMonotone(ByValue(a), ByValue(b), a, b, p, p);
    LargestIsMonotone(ByValue(b), ByValue(a), b, a, p, p);
  }

  // The loop.

  lemma SortedTests(tests: seq<Test>, ordered: seq<Test>)
    requires ordered == SortBy(tests, NoLarger)
    ensures |ordered| == |tests| && multiset(ordered) == multiset(tests)
    ensures Ascending(PValues(ordered)) && multiset(PValues(ordered)) == multiset(PValues(tests))
  {
    SortPermutes(tests, NoLarger);
    SortSorted(tests, NoLarger);
    MapPermutation(PValue(), ordered, tests);
  }

  function Keys(tests: seq<Test>): set<string> { set t | t in tests :: t.key }

  lemma KeysStayDistinct(a: seq<Test>, b: seq<Test>)
    requires DistinctKeys(a) && multiset(a) == multiset(b)
    ensures DistinctKeys(b) && Keys(a) == Keys(b)
  {
    MembersOfPermutation(a, b);
    DistinctIffMultiplicity(a);
    DistinctIffMultiplicity(b);
    assert Distinct(a) by { assert forall i, j :: 0 <= i < j < |a| ==> a[i].key != a[j].key; }
    forall i, j | 0 <= i < j < |b| ensures b[i].key != b[j].key {
      assert b[i] in a && b[j] in a && b[i] != b[j];
    }
  }

  /** One round of the loop. */
  method AdjustNext(ordered: seq<Test>, index: nat, running: real) returns (next: real)
    requires index < |ordered|
    requires running == if index == 0 then 0.0 else Running(ByRank(PValues(ordered)), index - 1)
    ensures next == Running(ByRank(PValues(ordered)), index)
  {
    var corrected := Min(1.0, (|ordered| - index) as real * ordered[index].pValue);
    TimesIsProduct(|ordered| - index, ordered[index].pValue);
    next := Max(running, corrected);
  }

  /** The loop over the sorted tests. */
  method AdjustSorted(ordered: seq<Test>, ghost keys: set<string>) returns (adjusted: map<string, real>)
    requires DistinctKeys(ordered) && forall k :: 0 <= k < |ordered| ==> ordered[k].key in keys
    ensures adjusted.Keys <= keys
    ensures forall k :: 0 <= k < |ordered| ==>
              ordered[k].key in adjusted && adjusted[ordered[k].key] == Running(ByRank(PValues(ordered)), k)
  {
    ghost var history := seq(|ordered|, k requires 0 <= k => Running(ByRank(PValues(ordered)), k));
    adjusted := map[];
    var running := 0.0;
    for index := 0 to |ordered|
      invariant running == if index == 0 then 0.0 else history[index-1]
      invariant adjusted.Keys <= keys
      invariant forall k :: 0 <= k < index ==> ordered[k].key in adjusted && adjusted[ordered[k].key] == history[k]
    {
      running := AdjustNext(ordered, index, running);
      var key := ordered[index].key;
      adjusted := adjusted[key := running];
    }
  }

  method HolmCorrection(tests: seq<Test>) returns (adjusted: map<string, real>)
    requires DistinctKeys(tests)
    ensures adjusted.Keys == Keys(tests)
    ensures forall t :: t in tests ==> adjusted[t.key] == Adjusted(PValues(tests), t.pValue)
  {
    var ordered := SortBy(tests, NoLarger);
    SortedTests(tests, ordered);
    KeysStayDistinct(tests, ordered);
    MembersOfPermutation(tests, ordered);
    adjusted := AdjustSorted(ordered, Keys(tests));
    forall t | t in tests ensures t.key in adjusted && adjusted[t.key] == Adjusted(PValues(tests), t.pValue) {
      var k :| 0 <= k < |ordered| && ordered[k] == t;
      RunningIsAdjusted(PValues(ordered), k);
      AdjustedIgnoresOrder(PValues(ordered), PValues(tests), t.pValue);
    }
  }

  // What the adjusted values promise.

  /** The step-down procedure: how many of the `n` sorted tests it has rejected when it
      stops, from rank `j` on. */
  function Rejections(scaled: nat -> real, n: nat, alpha: real, j: nat): (r: nat)
    requires j <= n
    ensures j <= r <= n
    decreases n - j
  {
    if j < n && scaled(j) <= alpha then Rejections(scaled, n, alpha, j + 1) else j
  }

  lemma {:induction false} RejectionsArePrefix(scaled: nat -> real, n: nat, alpha: real, j: nat, k: nat)
    requires j <= k < n
    ensures k < Rejections(scaled, n, alpha, j) <==> forall i: nat :: j <= i <= k ==> scaled(i) <= alpha
    decreases n - j
  {
    if scaled(j) <= alpha {
      if j < k { RejectionsArePrefix(scaled, n, alpha, j + 1, k); }
    } else {
      assert !(forall i: nat :: j <= i <= k ==> scaled(i) <= alpha);
    }
  }

  /** An adjusted value is within a level exactly when the step-down procedure at that
      level rejects the test; the level one, which adjusted values never exceed, aside. */
  lemma AdjustedIffStepDownRejects(values: seq<real>, k: nat, alpha: real)
    requires k < |values| && alpha >= 0.0
    ensures Adjusted(values, Ordered(values)[k]) <= alpha <==>
      alpha >= 1.0 || k < Rejections(Scaled(Ordered(values)), |values|, alpha, 0)
  {
    var ordered := Ordered(values);
    OrderedFacts(values);
    AdjustedIgnoresOrder(values, ordered, ordered[k]);
    RunningIsAdjusted(ordered, k);
    CappedWithin(Scaled(ordered), ByRank(ordered), k, alpha);
    RejectionsArePrefix(Scaled(ordered), |values|, alpha, 0, k);
  }

  lemma CappedWithin(scaled: nat -> real, capped: nat -> real, k: nat, alpha: real)
    requires alpha >= 0.0 && forall j: nat :: j <= k ==> capped(j) == Min(1.0, scaled(j))
    ensures Running(capped, k) <= alpha <==> alpha >= 1.0 || forall j: nat :: j <= k ==> scaled(j) <= alpha
  {
    RunningIsLeastBound(capped, k, alpha);
  }

  /** At level one the two differ: two tests at 0.9 are both adjusted to one, and neither is rejected. */
  lemma LevelOneDiffers()
    ensures Adjusted([0.9, 0.9], 0.9) <= 1.0 && Rejections(Scaled([0.9, 0.9]), 2, 1.0, 0) == 0
  {
    LargestIsLeastBound(ByValue([0.9, 0.9]), [0.9, 0.9], 0.9, 1.0);
  }

  lemma CorrectionIsBracketed(count: nat, n: nat, q: real, p: real)
    requires 1 <= count <= n && 0.0 <= q <= p && q <= 1.0
    ensures q <= Min(1.0, Times(count, q)) <= Min(1.0, Times(n, p))
  {
    TimesIsMonotone(1, count, q, q);
    TimesIsMonotone(count, n, q, p);
  }

  lemma AdjustedIsWithin(values: seq<real>, p: real, bound: real)
    requires p in values && forall k :: 0 <= k < |values| ==> 0.0 <= values[k] <= 1.0
    requires bound == Min(1.0, Times(|values|, p))
    ensures p <= Adjusted(values, p) <= bound
  {
    forall q | q in values && q <= p ensures q <= ByValue(values)(q) <= bound {
      CountAll(values, AtLeast(q));
      CorrectionIsBracketed(Count(values, AtLeast(q)), |values|, q, p);
    }
    LargestIsLeastBound(ByValue(values), values, p, Adjusted(values, p));
    LargestIsLeastBound(ByValue(values), values, p, bound);
  }

  /** An adjusted value lies between the raw value and the Bonferroni bound. */
  lemma AdjustedIsBracketed(values: seq<real>, p: real)
    requires p in values && forall k :: 0 <= k < |values| ==> 0.0 <= values[k] <= 1.0
    ensures p <= Adjusted(values, p) <= Min(1.0, |values| as real * p)
  {
    TimesIsProduct(|values|, p);
    AdjustedIsWithin(values, p, Min(1.0, Times(|values|, p)));
  }

  /** Adjusting keeps the order of the tests. */
  lemma AdjustedIsMonotone(values: seq<real>, p: real, q: real)
    requires p <= q
    ensures 0.0 <= Adjusted(values, p) <= Adjusted(values, q)
  {
    LargestIsMonotone(ByValue(values), ByValue(values), values, values, p, q);
  }

  /** Testing one hypothesis more never lowers an adjusted value. */
  lemma MoreTestsAdjustMore(values: seq<real>, extra: real, p: real)
    requires forall k :: 0 <= k < |values| ==> 0.0 <= values[k]
    ensures Adjusted(values, p) <= Adjusted(values + [extra], p)
  {
    var more := values + [extra];
    forall q | q in values ensures q in more && ByValue(values)(q) <= ByValue(more)(q) {
      CountConcat(values, [extra], AtLeast(q));
      TimesIsMonotone(Count(values, AtLeast(q)), Count(more, AtLeast(q)), q, q);
    }
    LargestIsMonotone(ByValue(values), ByValue(more), values, more, p, p);
  }
}
