/** Anchors over all measured profiles, and the affine map that sends the least
    measured cost of every metric to zero and the largest one to one, keeping the
    order of costs in between (negotiation/normalization.py). */
module Normalization {
  import opened Wrappers
  import opened CostModel

  datatype Anchors = Anchors(minima: CostVector, maxima: CostVector)

  datatype SelectorError =
    | NoEvidence
    | ZeroDenominator(metric: Metric)
    | OutsideUnitInterval(metric: Metric)
    | EmptyCommonSafeSet
    | MissingCostEvidence(profileId: string)
    | NegativeRegret
    | NoZeroRegretProfile
    | EmptyCandidateSet

  /** The anchors enclose `v`, and no dimension is degenerate. */
  ghost predicate Encloses(a: Anchors, v: CostVector) {
    forall m: Metric :: a.minima.At(m) <= v.At(m) <= a.maxima.At(m)
  }

  ghost predicate Proper(a: Anchors) {
    forall m: Metric :: a.minima.At(m) < a.maxima.At(m)
  }

  function With(v: CostVector, m: Metric, x: real): CostVector {
    match m
    case WallTime => v.(wallTime := x)
    case ProcessCpuTime => v.(processCpuTime := x)
    case TotalHandshakeBytes => v.(totalHandshakeBytes := x)
  }

  method Extremes(vectors: seq<CostVector>, metric: Metric) returns (minimum: real, maximum: real)
    requires vectors != []
    ensures forall v :: v in vectors ==> minimum <= v.At(metric) <= maximum
    ensures exists v :: v in vectors && v.At(metric) == minimum
    ensures exists v :: v in vectors && v.At(metric) == maximum
  {
    minimum, maximum := vectors[0].At(metric), vectors[0].At(metric);
    ghost var low, high := vectors[0], vectors[0];
    for i := 1 to |vectors|
      invariant forall k :: 0 <= k < i ==> minimum <= vectors[k].At(metric) <= maximum
      invariant low in vectors && low.At(metric) == minimum
      invariant high in vectors && high.At(metric) == maximum
    {
      var x := vectors[i].At(metric);
      if x < minimum { minimum := x; low := vectors[i]; }
      if x > maximum { maximum := x; high := vectors[i]; }
    }
  }

  ghost predicate Varies(vectors: seq<CostVector>, m: Metric) {
    exists v, w :: v in vectors && w in vectors && v.At(m) < w.At(m)
  }

  ghost predicate AnchorsMetric(vectors: seq<CostVector>, minimum: real, maximum: real, m: Metric) {
    minimum < maximum && Varies(vectors, m) && forall v :: v in vectors ==> minimum <= v.At(m) <= maximum
  }

  method ComputeGlobalAnchors(vectors: seq<CostVector>) returns (r: Result<Anchors, SelectorError>)
    ensures r.Ok? <==> vectors != [] && forall m: Metric :: Varies(vectors, m)
    ensures r.Ok? ==> Proper(r.value) && forall v :: v in vectors ==> Encloses(r.value, v)
    ensures vectors == [] ==> r == Err(NoEvidence)
    ensures r.Err? && vectors != [] ==> r.error.ZeroDenominator? && !Varies(vectors, r.error.metric)
  {
    if vectors == [] {
      return Err(NoEvidence);
    }
    var minima, maxima := vectors[0], vectors[0];
    for i := 0 to |METRICS|
      invariant forall m :: m in METRICS[..i] ==> AnchorsMetric(vectors, minima.At(m), maxima.At(m), m)
    {
      var metric := METRICS[i];
      var minimum, maximum := Extremes(vectors, metric);
      if maximum == minimum {
        assert !Varies(vectors, metric);
        return Err(ZeroDenominator(metric));
      }
      minima, maxima := With(minima, metric, minimum), With(maxima, metric, maximum);
      assert METRICS[..i+1] == METRICS[..i] + [metric];
    }
    EveryMetricIsListed();
    assert METRICS[..|METRICS|] == METRICS;
    forall m: Metric ensures AnchorsMetric(vectors, minima.At(m), maxima.At(m), m) && Varies(vectors, m) {
      assert m in METRICS[..|METRICS|];
    }
    r := Ok(Anchors(minima, maxima));
  }

  /** `x` is the affine image of `raw`. */
  ghost predicate AffineImage(a: Anchors, m: Metric, raw: real, x: real) {
    x * (a.maxima.At(m) - a.minima.At(m)) == raw - a.minima.At(m)
  }

  ghost predicate Normalizes(a: Anchors, raw: CostVector, n: CostVector) {
    forall m: Metric :: 0.0 <= n.At(m) <= 1.0 && AffineImage(a, m, raw.At(m), n.At(m))
  }

  method NormalizeMetric(raw: real, a: Anchors, m: Metric) returns (value: real)
    requires a.minima.At(m) < a.maxima.At(m)
    ensures AffineImage(a, m, raw, value)
    ensures 0.0 <= value <= 1.0 <==> a.minima.At(m) <= raw <= a.maxima.At(m)
  {
    var span := a.maxima.At(m) - a.minima.At(m);
    value := (raw - a.minima.At(m)) / span;
  }

  method NormalizeVector(raw: CostVector, a: Anchors) returns (r: Result<CostVector, SelectorError>)
    requires Proper(a)
    ensures r.Ok? <==> Encloses(a, raw)
    ensures r.Ok? ==> Normalizes(a, raw, r.value)
    ensures r.Err? ==> r.error.OutsideUnitInterval?
                       && !(a.minima.At(r.error.metric) <= raw.At(r.error.metric) <= a.maxima.At(r.error.metric))
  {
    var normalized := raw;
    for i := 0 to |METRICS|
      invariant forall m :: m in METRICS[..i] ==>
                  && a.minima.At(m) <= raw.At(m) <= a.maxima.At(m)
                  && 0.0 <= normalized.At(m) <= 1.0 && AffineImage(a, m, raw.At(m), normalized.At(m))
    {
      var m := METRICS[i];
      var value := NormalizeMetric(raw.At(m), a, m);
      if value < 0.0 || value > 1.0 {
        return Err(OutsideUnitInterval(m));
      }
      normalized := With(normalized, m, value);
      assert METRICS[..i+1] == METRICS[..i] + [m];
    }
    EveryMetricIsListed();
    assert METRICS[..|METRICS|] == METRICS;
    r := Ok(normalized);
  }

  /** Normalisation keeps and reflects the cost order. */
  lemma NormalizationKeepsOrder(a: Anchors, rawX: CostVector, rawY: CostVector, x: CostVector, y: CostVector, m: Metric)
    requires Proper(a) && Normalizes(a, rawX, x) && Normalizes(a, rawY, y)
    ensures x.At(m) < y.At(m) <==> rawX.At(m) < rawY.At(m)
  {
    var span := a.maxima.At(m) - a.minima.At(m);
    assert (y.At(m) - x.At(m)) * span == rawY.At(m) - rawX.At(m);
    SignOfProduct(y.At(m) - x.At(m), span);
  }

  lemma SignOfProduct(d: real, span: real)
    requires span > 0.0
    ensures d * span > 0.0 <==> d > 0.0
  {
    if d <= 0.0 { assert -d * span >= 0.0; }
  }
}
