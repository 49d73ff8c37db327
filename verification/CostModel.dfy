/** Cost vectors, Pareto dominance and the filter that keeps the undominated
    candidates in their order and explains every one it removes, on raw costs
    (negotiation/cost_evidence.py, negotiation/pareto.py). */
module CostModel {
  import opened Sorting

  datatype Metric = WallTime | ProcessCpuTime | TotalHandshakeBytes

  const METRICS: seq<Metric> := [WallTime, ProcessCpuTime, TotalHandshakeBytes]

  datatype CostVector = CostVector(wallTime: real, processCpuTime: real, totalHandshakeBytes: real) {
    function At(m: Metric): real {
      match m
      case WallTime => wallTime
      case ProcessCpuTime => processCpuTime
      case TotalHandshakeBytes => totalHandshakeBytes
    }
  }

  ghost predicate NoWorse(left: CostVector, right: CostVector) {
    forall m: Metric :: left.At(m) <= right.At(m)
  }

  ghost predicate CostDominates(left: CostVector, right: CostVector) {
    NoWorse(left, right) && exists m: Metric :: left.At(m) < right.At(m)
  }

  /** The metrics among `ms` in which `left` is strictly cheaper. */
  function StrictMetrics(left: CostVector, right: CostVector, ms: seq<Metric>): seq<Metric> {
    if ms == [] then []
    else
      var last := ms[|ms|-1];
      StrictMetrics(left, right, ms[..|ms|-1]) + if left.At(last) < right.At(last) then [last] else []
  }

  method Dominates(left: CostVector, right: CostVector) returns (dominates: bool, strict: seq<Metric>)
    ensures dominates <==> CostDominates(left, right)
    ensures strict == if dominates then StrictMetrics(left, right, METRICS) else []
  {
    strict := [];
    for i := 0 to |METRICS|
      invariant strict == StrictMetrics(left, right, METRICS[..i])
      invariant forall k :: 0 <= k < i ==> left.At(METRICS[k]) <= right.At(METRICS[k])
      invariant strict == [] <==> forall k :: 0 <= k < i ==> left.At(METRICS[k]) >= right.At(METRICS[k])
    {
      var metric := METRICS[i];
      if left.At(metric) > right.At(metric) {
        return false, [];
      }
      if left.At(metric) < right.At(metric) {
        strict := strict + [metric];
      }
      assert METRICS[..i+1][..i] == METRICS[..i];
    }
    EveryMetricIsListed();
    assert METRICS[..|METRICS|] == METRICS;
    forall m: Metric
      ensures left.At(m) <= right.At(m) && (strict == [] ==> left.At(m) >= right.At(m))
    {
      var k :| 0 <= k < |METRICS| && METRICS[k] == m;
    }
    dominates := strict != [];
  }

  lemma EveryMetricIsListed()
    ensures forall m: Metric :: m in METRICS
  {
    forall m: Metric ensures m in METRICS {
      match m
      case WallTime => assert METRICS[0] == m;
      case ProcessCpuTime => assert METRICS[1] == m;
      case TotalHandshakeBytes => assert METRICS[2] == m;
    }
  }

  // Filtering.

  ghost predicate Covers(raw: map<string, CostVector>, ids: seq<string>) {
    forall id :: id in ids ==> id in raw
  }

  ghost predicate Dominated(ids: seq<string>, raw: map<string, CostVector>, id: string)
    requires Covers(raw, ids) && id in raw
  {
    exists other :: other in ids && CostDominates(raw[other], raw[id])
  }

  /** The members of `some` that nothing in `ids` dominates. */
  ghost function Undominated(ids: seq<string>, raw: map<string, CostVector>, some: seq<string>): (frontier: seq<string>)
    requires Covers(raw, ids) && Covers(raw, some)
    ensures forall id :: id in frontier <==> id in some && !Dominated(ids, raw, id)
  {
    if some == [] then []
    else
      var last := some[|some|-1];
      assert last in some;
      Undominated(ids, raw, some[..|some|-1]) + if Dominated(ids, raw, last) then [] else [last]
  }

  ghost function Frontier(ids: seq<string>, raw: map<string, CostVector>): seq<string>
    requires Covers(raw, ids)
  {
    Undominated(ids, raw, ids)
  }

  datatype DominationExplanation = DominationExplanation(
    dominatingProfileIds: seq<string>,
    dominatedDimensions: map<string, seq<Metric>>)

  ghost predicate Explains(ids: seq<string>, raw: map<string, CostVector>, id: string, e: DominationExplanation)
    requires Covers(raw, ids) && id in raw
  {
    && SortedBy(e.dominatingProfileIds, StrLe)
    && (forall d :: d in e.dominatingProfileIds <==> d in ids && CostDominates(raw[d], raw[id]))
    && (forall d :: d in e.dominatedDimensions <==> d in ids && CostDominates(raw[d], raw[id]))
    && forall d :: d in e.dominatedDimensions ==> e.dominatedDimensions[d] == StrictMetrics(raw[d], raw[id], METRICS)
  }

  method DominatorsOf(ids: seq<string>, raw: map<string, CostVector>, id: string) returns (e: DominationExplanation)
    requires Covers(raw, ids) && id in ids
    ensures Explains(ids, raw, id, e)
  {
    var dominators: seq<string> := [];
    var strictBy: map<string, seq<Metric>> := map[];
    for k := 0 to |ids|
      invariant forall d :: d in dominators <==> d in ids[..k] && CostDominates(raw[d], raw[id])
      invariant forall d :: d in strictBy <==> d in ids[..k] && CostDominates(raw[d], raw[id])
      invariant forall d :: d in strictBy ==> strictBy[d] == StrictMetrics(raw[d], raw[id], METRICS)
    {
      var other := ids[k];
      assert ids[..k+1] == ids[..k] + [other];
      if other == id {
        continue;
      }
      var isDominated, strict := Dominates(raw[other], raw[id]);
      if isDominated {
        dominators := dominators + [other];
        strictBy := strictBy[other := strict];
      }
    }
    assert ids[..|ids|] == ids;
    StrOrder();
    SortSorted(dominators, StrLe);
    SortMembers(dominators, StrLe);
    e := DominationExplanation(SortStrings(dominators), strictBy);
  }

  method ParetoFilter(ids: seq<string>, raw: map<string, CostVector>)
      returns (frontier: seq<string>, removed: map<string, DominationExplanation>)
    requires Covers(raw, ids)
    ensures frontier == Frontier(ids, raw)
    ensures forall id :: id in removed <==> id in ids && Dominated(ids, raw, id)
    ensures forall id :: id in removed ==> id in ids && Explains(ids, raw, id, removed[id])
  {
    removed := map[];
    for k := 0 to |ids|
      invariant forall id :: id in removed <==> id in ids[..k] && Dominated(ids, raw, id)
      invariant forall id :: id in removed ==> id in ids && Explains(ids, raw, id, removed[id])
    {
      var id := ids[k];
      var e := DominatorsOf(ids, raw, id);
      assert ids[..k+1] == ids[..k] + [id];
      if e.dominatingProfileIds != [] {
        assert e.dominatingProfileIds[0] in e.dominatingProfileIds;
        removed := removed[id := e];
      }
    }
    assert ids[..|ids|] == ids;
    frontier := [];
    for k := 0 to |ids|
      invariant frontier == Undominated(ids, raw, ids[..k])
    {
      assert ids[..k+1][..k] == ids[..k];
      if ids[k] !in removed {
        frontier := frontier + [ids[k]];
      }
    }
    assert ids[..|ids|] == ids;
  }

  ghost function Dominators(ids: seq<string>, raw: map<string, CostVector>, id: string): set<string>
    requires Covers(raw, ids) && id in raw
  {
    set d | d in ids && CostDominates(raw[d], raw[id])
  }

  /** Whatever the filter removes is dominated by something it keeps. */
  lemma {:induction false} FrontierDominator(ids: seq<string>, raw: map<string, CostVector>, id: string) returns (best: string)
    requires Covers(raw, ids) && id in raw && Dominated(ids, raw, id)
    ensures best in Frontier(ids, raw) && CostDominates(raw[best], raw[id])
    decreases Dominators(ids, raw, id)
  {
    var d :| d in ids && CostDominates(raw[d], raw[id]);
    if Dominated(ids, raw, d) {
      forall e | e in Dominators(ids, raw, d) ensures e in Dominators(ids, raw, id) {
      }
      assert d in Dominators(ids, raw, id) && d !in Dominators(ids, raw, d);
      best := FrontierDominator(ids, raw, d);
    } else {
      best := d;
    }
  }
}
