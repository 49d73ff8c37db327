/** Weighted costs, bilateral regrets and the minimax choice (negotiation/regret.py). */
module Regret {
  import opened Wrappers
  import opened Sorting
  import opened CostModel
  import opened Normalization

  const BPS_DENOMINATOR := 10000.0

  /** Basis-point weights; a declared preference sums to 10000. */
  datatype Preference = Preference(wallTimeBps: nat, processCpuTimeBps: nat, totalHandshakeBytesBps: nat) {
    predicate Valid() {
      wallTimeBps + processCpuTimeBps + totalHandshakeBytesBps == 10000
    }

    function Weight(m: Metric): real {
      (match m
       case WallTime => wallTimeBps
       case ProcessCpuTime => processCpuTimeBps
       case TotalHandshakeBytes => totalHandshakeBytesBps) as real / BPS_DENOMINATOR
    }
  }

  function Sum(v: CostVector): real {
    v.wallTime + v.processCpuTime + v.totalHandshakeBytes
  }

  function Largest(v: CostVector): real {
    var a := if v.wallTime >= v.processCpuTime then v.wallTime else v.processCpuTime;
    if a >= v.totalHandshakeBytes then a else v.totalHandshakeBytes
  }

  function WeightedComponents(n: CostVector, p: Preference): CostVector {
    CostVector(p.Weight(WallTime) * n.wallTime,
               p.Weight(ProcessCpuTime) * n.processCpuTime,
               p.Weight(TotalHandshakeBytes) * n.totalHandshakeBytes)
  }

  function WeightedTotal(n: CostVector, p: Preference): real {
    Sum(WeightedComponents(n, p))
  }

  datatype RegretRow = RegretRow(
    profileId: string,
    initiatorCost: real,
    responderCost: real,
    initiatorRegret: real,
    responderRegret: real,
    maximumRegret: real,
    totalRegret: real,
    maximumNormalizedComponent: real,
    totalNormalizedCost: real)

  // The regret table.

  /** The least total cost that `p` gives to any of the candidates. */
  ghost function MinCost(ids: seq<string>, n: map<string, CostVector>, p: Preference): (least: real)
    requires ids != [] && Covers(n, ids)
    ensures forall id :: id in ids ==> least <= WeightedTotal(n[id], p)
    ensures exists id :: id in ids && least == WeightedTotal(n[id], p)
  {
    var last := ids[|ids|-1];
    assert last in ids;
    var here := WeightedTotal(n[last], p);
    if |ids| == 1 then here
    else
      var before := MinCost(ids[..|ids|-1], n, p);
      if here < before then here else before
  }

  function RowFor(id: string, v: CostVector, initiator: Preference, responder: Preference,
                  minInitiator: real, minResponder: real): RegretRow {
    var ci, cr := WeightedTotal(v, initiator), WeightedTotal(v, responder);
    var ri, rr := ci - minInitiator, cr - minResponder;
    RegretRow(id, ci, cr, ri, rr, Max(ri, rr), ri + rr, Largest(v), Sum(v))
  }

  /** The regret row of a profile when regrets are taken over `ids`. */
  ghost function Row(ids: seq<string>, n: map<string, CostVector>, initiator: Preference, responder: Preference, id: string): RegretRow
    requires ids != [] && Covers(n, ids) && id in n
  {
    RowFor(id, n[id], initiator, responder, MinCost(ids, n, initiator), MinCost(ids, n, responder))
  }

  ghost function Rows(ids: seq<string>, n: map<string, CostVector>, initiator: Preference, responder: Preference): (rows: seq<RegretRow>)
    requires ids != [] && Covers(n, ids)
    ensures |rows| == |ids|
    ensures forall i :: 0 <= i < |ids| ==> rows[i] == Row(ids, n, initiator, responder, ids[i])
  {
    seq(|ids|, i requires 0 <= i < |ids| => assert ids[i] in ids; Row(ids, n, initiator, responder, ids[i]))
  }

  method LeastCost(ids: seq<string>, n: map<string, CostVector>, p: Preference) returns (least: real)
    requires ids != [] && Covers(n, ids)
    ensures least == MinCost(ids, n, p)
  {
    least := WeightedTotal(n[ids[0]], p);
    assert ids[..1] == [ids[0]];
    for i := 1 to |ids|
      invariant least == MinCost(ids[..i], n, p)
    {
      var here := WeightedTotal(n[ids[i]], p);
      assert ids[..i+1][..i] == ids[..i];
      if here < least { least := here; }
    }
    assert ids[..|ids|] == ids;
  }

  /** The loop over the candidates, given the two least costs; a negative regret stops it. */
  method TableOfRows(ids: seq<string>, n: map<string, CostVector>, initiator: Preference, responder: Preference,
                     minInitiator: real, minResponder: real) returns (r: Result<seq<RegretRow>, SelectorError>)
    requires Covers(n, ids)
    ensures r.Ok? ==> |r.value| == |ids|
    ensures r.Ok? ==> forall k :: 0 <= k < |ids| ==> r.value[k] == RowFor(ids[k], n[ids[k]], initiator, responder, minInitiator, minResponder)
    ensures r.Err? ==> r.error == NegativeRegret
    ensures r.Err? ==> exists k ::
              0 <= k < |ids| && IsNegative(RowFor(ids[k], n[ids[k]], initiator, responder, minInitiator, minResponder))
  {
    var rows: seq<RegretRow> := [];
    for i := 0 to |ids|
      invariant |rows| == i
      invariant forall k :: 0 <= k < i ==> rows[k] == RowFor(ids[k], n[ids[k]], initiator, responder, minInitiator, minResponder)
    {
      var row := RowFor(ids[i], n[ids[i]], initiator, responder, minInitiator, minResponder);
      if IsNegative(row) {
        return Err(NegativeRegret);
      }
      rows := rows + [row];
    }
    r := Ok(rows);
  }

  predicate IsNegative(row: RegretRow) { row.initiatorRegret < 0.0 || row.responderRegret < 0.0 }

  /** The rows, in the order of the candidates; no regret is negative. */
  method RegretTable(ids: seq<string>, n: map<string, CostVector>, initiator: Preference, responder: Preference)
      returns (r: Result<seq<RegretRow>, SelectorError>)
    requires ids != [] && Covers(n, ids)
    ensures r == Ok(Rows(ids, n, initiator, responder))
  {
    var minInitiator := LeastCost(ids, n, initiator);
    var minResponder := LeastCost(ids, n, responder);
    r := TableOfRows(ids, n, initiator, responder, minInitiator, minResponder);
    if r.Ok? { assert r.value == Rows(ids, n, initiator, responder); }
  }

  /** The table is built for every nonempty candidate set: neither of the two
      internal errors can occur. */
  method ComputeRegretRows(ids: seq<string>, n: map<string, CostVector>, initiator: Preference, responder: Preference)
      returns (r: Result<seq<RegretRow>, SelectorError>)
    requires Covers(n, ids)
    ensures ids == [] ==> r == Err(EmptyCandidateSet)
    ensures ids != [] ==> r == Ok(Rows(ids, n, initiator, responder))
  {
    if ids == [] {
      return Err(EmptyCandidateSet);
    }
    r := RegretTable(ids, n, initiator, responder);
    if r.Err? {
      return;
    }
    AttainedMinimum(ids, n, initiator, responder);
    var noZeroInitiator := forall k | 0 <= k < |r.value| :: r.value[k].initiatorRegret != 0.0;
    var noZeroResponder := forall k | 0 <= k < |r.value| :: r.value[k].responderRegret != 0.0;
    if noZeroInitiator || noZeroResponder {
      return Err(NoZeroRegretProfile);
    }
  }

  lemma AttainedMinimum(ids: seq<string>, n: map<string, CostVector>, initiator: Preference, responder: Preference)
    requires ids != [] && Covers(n, ids)
    ensures exists k :: 0 <= k < |ids| && Rows(ids, n, initiator, responder)[k].initiatorRegret == 0.0
    ensures exists k :: 0 <= k < |ids| && Rows(ids, n, initiator, responder)[k].responderRegret == 0.0
  {
    var leastInitiator, leastResponder := MinCost(ids, n, initiator), MinCost(ids, n, responder);
    var a :| a in ids && leastInitiator == WeightedTotal(n[a], initiator);
    var b :| b in ids && leastResponder == WeightedTotal(n[b], responder);
    var i :| 0 <= i < |ids| && ids[i] == a;
    var j :| 0 <= j < |ids| && ids[j] == b;
    assert Rows(ids, n, initiator, responder)[i].initiatorRegret == 0.0;
    assert Rows(ids, n, initiator, responder)[j].responderRegret == 0.0;
  }

  // The selection key.

  datatype Key = Key(maximumRegret: real, totalRegret: real, maximumComponent: real, totalCost: real, profileId: string)

  function KeyOf(row: RegretRow): Key {
    Key(row.maximumRegret, row.totalRegret, row.maximumNormalizedComponent, row.totalNormalizedCost, row.profileId)
  }

  predicate KeyLe(a: Key, b: Key) {
    if a.maximumRegret != b.maximumRegret then a.maximumRegret < b.maximumRegret
    else if a.totalRegret != b.totalRegret then a.totalRegret < b.totalRegret
    else if a.maximumComponent != b.maximumComponent then a.maximumComponent < b.maximumComponent
    else if a.totalCost != b.totalCost then a.totalCost < b.totalCost
    else StrLe(a.profileId, b.profileId)
  }

  lemma KeyOrder()
    ensures TotalPreorder(KeyLe) && Antisymmetric(KeyLe)
  {
    StrOrder();
  }

  datatype KeyedRow = KeyedRow(key: Key, row: RegretRow)

  predicate KeyedLe(a: KeyedRow, b: KeyedRow) {
    KeyLe(a.key, b.key)
  }

  ghost predicate DistinctProfiles(rows: seq<RegretRow>) {
    forall i, j :: 0 <= i < j < |rows| ==> rows[i].profileId != rows[j].profileId
  }

  /** `id` belongs to a row whose key is least. */
  ghost predicate IsChoice(rows: seq<RegretRow>, id: string) {
    exists row :: row in rows && row.profileId == id && forall other :: other in rows ==> KeyLe(KeyOf(row), KeyOf(other))
  }

  /** At most one profile can be the choice. */
  lemma ChoiceIsUnique(rows: seq<RegretRow>, a: string, b: string)
    requires IsChoice(rows, a) && IsChoice(rows, b)
    ensures a == b
  {
    KeyOrder();
  }

  method MinimaxRegretSelect(rows: seq<RegretRow>) returns (r: Result<string, SelectorError>, ordered: seq<RegretRow>)
    ensures rows == [] ==> r == Err(EmptyCandidateSet)
    ensures rows != [] && DistinctProfiles(rows) ==>
              && r.Ok? && IsChoice(rows, r.value)
              && |ordered| == |rows| && (forall row :: row in ordered <==> row in rows)
              && (forall i, j :: 0 <= i < j < |ordered| ==> KeyLe(KeyOf(ordered[i]), KeyOf(ordered[j])))
  {
    ordered := [];
    if rows == [] {
      return Err(EmptyCandidateSet), [];
    }
    var keys: map<string, Key> := map[];
    for i := 0 to |rows|
      invariant forall k :: 0 <= k < i ==> rows[k].profileId in keys
      invariant DistinctProfiles(rows) ==> forall k :: 0 <= k < i ==> keys[rows[k].profileId] == KeyOf(rows[k])
    {
      keys := keys[rows[i].profileId := KeyOf(rows[i])];
    }
    var keyed := seq(|rows|, i requires 0 <= i < |rows| && (forall k :: 0 <= k < |rows| ==> rows[k].profileId in keys) =>
      KeyedRow(keys[rows[i].profileId], rows[i]));
    KeyOrder();
    SortSorted(keyed, KeyedLe);
    SortMembers(keyed, KeyedLe);
    var sorted := SortBy(keyed, KeyedLe);
    ordered := seq(|sorted|, i requires 0 <= i < |sorted| => sorted[i].row);
    r := Ok(ordered[0].profileId);
    if DistinctProfiles(rows) { SortedRows(rows, keyed, sorted, ordered); }
  }

  /** The rows of a sorted list of keyed rows are the rows in key order. */
  lemma SortedRows(rows: seq<RegretRow>, keyed: seq<KeyedRow>, sorted: seq<KeyedRow>, ordered: seq<RegretRow>)
    requires |keyed| == |rows| && forall i :: 0 <= i < |rows| ==> keyed[i] == KeyedRow(KeyOf(rows[i]), rows[i])
    requires SortedBy(sorted, KeyedLe) && forall row :: row in sorted <==> row in keyed
    requires |ordered| == |sorted| == |rows| > 0 && forall i :: 0 <= i < |sorted| ==> ordered[i] == sorted[i].row
    ensures IsChoice(rows, ordered[0].profileId) && forall row :: row in ordered <==> row in rows
    ensures forall i, j :: 0 <= i < j < |ordered| ==> KeyLe(KeyOf(ordered[i]), KeyOf(ordered[j]))
  {
    KeyOrder();
    forall i | 0 <= i < |sorted| ensures sorted[i].key == KeyOf(ordered[i]) && ordered[i] in rows {
      assert sorted[i] in keyed;
    }
    forall row | row in rows ensures row in ordered && KeyLe(KeyOf(ordered[0]), KeyOf(row)) {
      var i :| 0 <= i < |rows| && rows[i] == row;
      assert keyed[i] in sorted;
      var k :| 0 <= k < |sorted| && sorted[k] == keyed[i];
      assert ordered[k] == row;
      assert KeyLe(KeyOf(row), KeyOf(row));
    }
  }
}
