/** Bilateral selection over the common safe set (negotiation/selector.py). */
module Selector {
  import opened Wrappers
  import opened Sorting
  import opened CostModel
  import opened Normalization
  import opened Regret

  datatype ProfileCost = ProfileCost(profileId: string, measured: CostVector)

  datatype Selection = Selection(
    common: seq<string>,
    anchors: Anchors,
    raw: map<string, CostVector>,
    normalized: map<string, CostVector>,
    frontier: seq<string>,
    removed: map<string, DominationExplanation>,
    selected: string)

  /** Intersection of the local safe sets, in catalogue order. */
  function CommonSafeSet(catalog: seq<string>, initiatorSafe: seq<string>, responderSafe: seq<string>): (common: seq<string>)
    ensures forall id :: id in common <==> id in catalog && id in initiatorSafe && id in responderSafe
    ensures Distinct(catalog) ==> Distinct(common)
  {
    if catalog == [] then []
    else
      var first := catalog[0];
      var rest := CommonSafeSet(catalog[1..], initiatorSafe, responderSafe);
      if first in initiatorSafe && first in responderSafe then
        assert Distinct(catalog) ==> Distinct(catalog[1..]) && first !in catalog[1..];
        [first] + rest
      else rest
  }

  /** Two common profiles stand in the order in which the catalogue lists them. */
  lemma {:induction false} CommonKeepsCatalogOrder(catalog: seq<string>, initiatorSafe: seq<string>, responderSafe: seq<string>,
                                                   a: nat, b: nat, i: nat, j: nat)
    requires Distinct(catalog) && i < |catalog| && j < |catalog|
    requires a < |CommonSafeSet(catalog, initiatorSafe, responderSafe)| && b < |CommonSafeSet(catalog, initiatorSafe, responderSafe)|
    requires CommonSafeSet(catalog, initiatorSafe, responderSafe)[a] == catalog[i]
    requires CommonSafeSet(catalog, initiatorSafe, responderSafe)[b] == catalog[j]
    ensures a < b <==> i < j
  {
    var tail, rest := catalog[1..], CommonSafeSet(catalog[1..], initiatorSafe, responderSafe);
    assert forall k :: 0 <= k < |tail| ==> tail[k] == catalog[k+1];
    assert catalog[0] !in rest;
    if catalog[0] in initiatorSafe && catalog[0] in responderSafe {
      assert a > 0 ==> rest[a-1] == catalog[i];
      assert b > 0 ==> rest[b-1] == catalog[j];
      assert (a == 0 <==> i == 0) && (b == 0 <==> j == 0);
      if a > 0 && b > 0 { CommonKeepsCatalogOrder(tail, initiatorSafe, responderSafe, a - 1, b - 1, i - 1, j - 1); }
    } else {
      assert rest[a] in rest && rest[b] in rest;
      CommonKeepsCatalogOrder(tail, initiatorSafe, responderSafe, a, b, i - 1, j - 1);
    }
  }

  // Filtering does not change what is chosen.

  ghost predicate NormalizedBy(a: Anchors, raw: map<string, CostVector>, n: map<string, CostVector>, ids: seq<string>) {
    Proper(a) && Covers(raw, ids) && Covers(n, ids) && forall id :: id in ids ==> Normalizes(a, raw[id], n[id])
  }

  lemma TotalOrder(x: CostVector, y: CostVector, p: Preference)
    requires NoWorse(x, y)
    ensures WeightedTotal(x, p) <= WeightedTotal(y, p)
  {
    assert x.At(WallTime) <= y.At(WallTime) && x.At(ProcessCpuTime) <= y.At(ProcessCpuTime)
        && x.At(TotalHandshakeBytes) <= y.At(TotalHandshakeBytes);
    var u, v := WeightedComponents(x, p), WeightedComponents(y, p);
    assert u.wallTime <= v.wallTime;
    assert u.processCpuTime <= v.processCpuTime;
    assert u.totalHandshakeBytes <= v.totalHandshakeBytes;
  }

  /** A dominating profile is no worse for anyone and cheaper in total. */
  lemma DominatorIsCheaper(a: Anchors, rawX: CostVector, rawY: CostVector, x: CostVector, y: CostVector, p: Preference)
    requires Proper(a) && Normalizes(a, rawX, x) && Normalizes(a, rawY, y) && CostDominates(rawX, rawY)
    ensures WeightedTotal(x, p) <= WeightedTotal(y, p)
    ensures Largest(x) <= Largest(y) && Sum(x) < Sum(y)
  {
    DominationSurvivesNormalization(a, rawX, rawY, x, y);
    TotalOrder(x, y, p);
    assert x.At(WallTime) <= y.At(WallTime) && x.At(ProcessCpuTime) <= y.At(ProcessCpuTime)
        && x.At(TotalHandshakeBytes) <= y.At(TotalHandshakeBytes);
    var m :| x.At(m) < y.At(m);
  }

  lemma DominationSurvivesNormalization(a: Anchors, rawX: CostVector, rawY: CostVector, x: CostVector, y: CostVector)
    requires Proper(a) && Normalizes(a, rawX, x) && Normalizes(a, rawY, y)
    ensures CostDominates(rawX, rawY) <==> CostDominates(x, y)
  {
    forall m: Metric
      ensures x.At(m) < y.At(m) <==> rawX.At(m) < rawY.At(m)
      ensures x.At(m) <= y.At(m) <==> rawX.At(m) <= rawY.At(m)
    {
      NormalizationKeepsOrder(a, rawX, rawY, x, y, m);
      NormalizationKeepsOrder(a, rawY, rawX, y, x, m);
    }
    if CostDominates(rawX, rawY) {
      var m :| rawX.At(m) < rawY.At(m);
      assert x.At(m) < y.At(m);
    }
    if CostDominates(x, y) {
      var m :| x.At(m) < y.At(m);
      assert rawX.At(m) < rawY.At(m);
    }
  }

  /** The frontier is nonempty and has every agent's cheapest cost. */
  lemma FrontierKeepsMinimum(a: Anchors, raw: map<string, CostVector>, n: map<string, CostVector>, ids: seq<string>, p: Preference)
    requires NormalizedBy(a, raw, n, ids) && ids != []
    ensures Frontier(ids, raw) != [] && Covers(n, Frontier(ids, raw))
    ensures MinCost(Frontier(ids, raw), n, p) == MinCost(ids, n, p)
  {
    var frontier := Frontier(ids, raw);
    var cheapest := CheapestOnFrontier(a, raw, n, ids, p);
    var kept := MinCost(frontier, n, p);
    var k :| k in frontier && kept == WeightedTotal(n[k], p);
  }

  lemma CheapestOnFrontier(a: Anchors, raw: map<string, CostVector>, n: map<string, CostVector>, ids: seq<string>, p: Preference)
      returns (cheapest: string)
    requires NormalizedBy(a, raw, n, ids) && ids != []
    ensures cheapest in Frontier(ids, raw) && cheapest in ids && WeightedTotal(n[cheapest], p) == MinCost(ids, n, p)
  {
    var least := MinCost(ids, n, p);
    cheapest :| cheapest in ids && least == WeightedTotal(n[cheapest], p);
    if Dominated(ids, raw, cheapest) {
      var better := FrontierDominator(ids, raw, cheapest);
      DominatorIsCheaper(a, raw[better], raw[cheapest], n[better], n[cheapest], p);
      cheapest := better;
    }
  }

  /** A dominating profile has a strictly smaller key, whatever the identifiers. */
  lemma DominatorHasSmallerKey(a: Anchors, raw: map<string, CostVector>, n: map<string, CostVector>, ids: seq<string>,
                               initiator: Preference, responder: Preference, x: string, y: string)
    requires NormalizedBy(a, raw, n, ids) && x in ids && y in ids && CostDominates(raw[x], raw[y])
    ensures var kx, ky := KeyOf(Row(ids, n, initiator, responder, x)), KeyOf(Row(ids, n, initiator, responder, y));
            KeyLe(kx, ky) && !KeyLe(ky, kx)
  {
    DominatorIsCheaper(a, raw[x], raw[y], n[x], n[y], initiator);
    DominatorIsCheaper(a, raw[x], raw[y], n[x], n[y], responder);
  }

  /** The choice, stated over profiles instead of rows. */
  ghost predicate Chosen(ids: seq<string>, n: map<string, CostVector>, initiator: Preference, responder: Preference, id: string)
    requires ids != [] && Covers(n, ids)
  {
    id in ids && forall other :: other in ids ==>
      KeyLe(KeyOf(Row(ids, n, initiator, responder, id)), KeyOf(Row(ids, n, initiator, responder, other)))
  }

  lemma ChosenIsChoice(ids: seq<string>, n: map<string, CostVector>, initiator: Preference, responder: Preference, id: string)
    requires ids != [] && Covers(n, ids)
    ensures Chosen(ids, n, initiator, responder, id) <==> IsChoice(Rows(ids, n, initiator, responder), id)
  {
    var rows := Rows(ids, n, initiator, responder);
    if Chosen(ids, n, initiator, responder, id) {
      assert Row(ids, n, initiator, responder, id) in rows;
    }
    if IsChoice(rows, id) {
      var row :| row in rows && row.profileId == id && forall other :: other in rows ==> KeyLe(KeyOf(row), KeyOf(other));
      assert row == Row(ids, n, initiator, responder, id);
      forall other | other in ids
        ensures KeyLe(KeyOf(row), KeyOf(Row(ids, n, initiator, responder, other)))
      {
        assert Row(ids, n, initiator, responder, other) in rows;
      }
    }
  }

  /** Choosing on the Pareto frontier and choosing on the whole candidate set
      give the same profile. */
  lemma FilterPreservesChoice(a: Anchors, raw: map<string, CostVector>, n: map<string, CostVector>, ids: seq<string>,
                              initiator: Preference, responder: Preference, id: string)
    requires NormalizedBy(a, raw, n, ids) && ids != []
    requires Frontier(ids, raw) != [] && Covers(n, Frontier(ids, raw))
    ensures Chosen(Frontier(ids, raw), n, initiator, responder, id) <==> Chosen(ids, n, initiator, responder, id)
  {
    var frontier := Frontier(ids, raw);
    FrontierKeepsMinimum(a, raw, n, ids, initiator);
    FrontierKeepsMinimum(a, raw, n, ids, responder);
    assert forall x :: x in n ==> Row(frontier, n, initiator, responder, x) == Row(ids, n, initiator, responder, x);
    KeyOrder();
    if Chosen(ids, n, initiator, responder, id) && Dominated(ids, raw, id) {
      var better := FrontierDominator(ids, raw, id);
      DominatorHasSmallerKey(a, raw, n, ids, initiator, responder, better, id);
    }
    if Chosen(frontier, n, initiator, responder, id) {
      forall other | other in ids
        ensures KeyLe(KeyOf(Row(ids, n, initiator, responder, id)), KeyOf(Row(ids, n, initiator, responder, other)))
      {
        if Dominated(ids, raw, other) {
          var better := FrontierDominator(ids, raw, other);
          DominatorHasSmallerKey(a, raw, n, ids, initiator, responder, better, other);
          assert KeyLe(KeyOf(Row(frontier, n, initiator, responder, id)), KeyOf(Row(frontier, n, initiator, responder, better)));
        }
      }
    }
  }

  // The operation.

  /** The vector of a profile; a later entry replaces an earlier one. */
  function VectorOf(evidence: seq<ProfileCost>, id: string): Option<CostVector> {
    if evidence == [] then None
    else
      var last := evidence[|evidence|-1];
      if last.profileId == id then Some(last.measured) else VectorOf(evidence[..|evidence|-1], id)
  }

  ghost predicate Measured(evidence: seq<ProfileCost>, id: string) {
    VectorOf(evidence, id).Some?
  }

  /** A profile has a vector exactly when some entry is for it, and its vector is of such an entry. */
  lemma {:induction false} VectorIsListed(evidence: seq<ProfileCost>, id: string)
    ensures Measured(evidence, id) <==> exists k :: 0 <= k < |evidence| && evidence[k].profileId == id
    ensures Measured(evidence, id) ==> ProfileCost(id, VectorOf(evidence, id).value) in evidence
  {
    if evidence != [] {
      VectorIsListed(evidence[..|evidence|-1], id);
      assert evidence == evidence[..|evidence|-1] + [evidence[|evidence|-1]];
    }
  }

  method MeasuredVectors(evidence: seq<ProfileCost>) returns (raw: map<string, CostVector>)
    ensures forall id :: VectorOf(evidence, id) == if id in raw then Some(raw[id]) else None
  {
    raw := map[];
    for i := 0 to |evidence|
      invariant forall id :: VectorOf(evidence[..i], id) == if id in raw then Some(raw[id]) else None
    {
      assert evidence[..i+1][..i] == evidence[..i];
      raw := raw[evidence[i].profileId := evidence[i].measured];
    }
    assert evidence[..|evidence|] == evidence;
  }

  method NormalizeAll(ids: seq<string>, raw: map<string, CostVector>, a: Anchors)
      returns (r: Result<map<string, CostVector>, SelectorError>)
    requires Proper(a) && Covers(raw, ids)
    ensures r.Ok? <==> forall id :: id in ids ==> Encloses(a, raw[id])
    ensures r.Ok? ==> NormalizedBy(a, raw, r.value, ids)
    ensures r.Err? ==> r.error.OutsideUnitInterval?
  {
    var n: map<string, CostVector> := map[];
    for i := 0 to |ids|
      invariant forall k :: 0 <= k < i ==> ids[k] in n && Encloses(a, raw[ids[k]]) && Normalizes(a, raw[ids[k]], n[ids[k]])
    {
      var normalized := NormalizeVector(raw[ids[i]], a);
      if normalized.Err? {
        return Err(normalized.error);
      }
      n := n[ids[i] := normalized.value];
    }
    r := Ok(n);
  }

  ghost function Vectors(evidence: seq<ProfileCost>): seq<CostVector> {
    seq(|evidence|, i requires 0 <= i < |evidence| => evidence[i].measured)
  }

  /** Every candidate is measured, and no metric is the same for all profiles. */
  ghost predicate UsableEvidence(evidence: seq<ProfileCost>, ids: seq<string>) {
    (forall id :: id in ids ==> Measured(evidence, id)) && forall m: Metric :: Varies(Vectors(evidence), m)
  }

  /** `raw` holds the vector that the evidence gives for each candidate. */
  ghost predicate FromEvidence(evidence: seq<ProfileCost>, ids: seq<string>, raw: map<string, CostVector>) {
    Covers(raw, ids) && forall id :: id in ids ==> VectorOf(evidence, id) == Some(raw[id])
  }

  /** Every candidate is measured, and its vector lies between the anchors. */
  ghost predicate UsableWith(evidence: seq<ProfileCost>, ids: seq<string>, a: Anchors) {
    forall id :: id in ids ==> Measured(evidence, id) && Encloses(a, VectorOf(evidence, id).value)
  }

  method CandidateVectors(evidence: seq<ProfileCost>, ids: seq<string>) returns (r: Result<map<string, CostVector>, SelectorError>)
    ensures r.Ok? <==> forall id :: id in ids ==> Measured(evidence, id)
    ensures r.Ok? ==> FromEvidence(evidence, ids, r.value)
    ensures r.Err? ==> r.error.MissingCostEvidence?
  {
    var all := MeasuredVectors(evidence);
    if id :| id in ids && id !in all {
      return Err(MissingCostEvidence(id));
    }
    r := Ok(map id | id in ids :: all[id]);
  }

  /** The anchors to use; computed ones enclose every measured vector. */
  method ResolveAnchors(evidence: seq<ProfileCost>, given: Option<Anchors>) returns (r: Result<Anchors, SelectorError>)
    requires given.Some? ==> Proper(given.value)
    ensures given.Some? ==> r == Ok(given.value)
    ensures r.Ok? ==> Proper(r.value)
    ensures given.None? && r.Ok? ==> forall k :: 0 <= k < |evidence| ==> Encloses(r.value, evidence[k].measured)
    ensures given.None? && evidence != [] ==> (r.Ok? <==> forall m: Metric :: Varies(Vectors(evidence), m))
    ensures r.Err? ==> if evidence == [] then r.error.NoEvidence? else r.error.ZeroDenominator?
  {
    if given.Some? {
      return Ok(given.value);
    }
    var vectors := seq(|evidence|, i requires 0 <= i < |evidence| => evidence[i].measured);
    assert vectors == Vectors(evidence);
    r := ComputeGlobalAnchors(vectors);
    if r.Ok? {
      forall k | 0 <= k < |evidence| ensures Encloses(r.value, evidence[k].measured) { assert vectors[k] in vectors; }
    }
  }

  /** Filter, rank, choose: the choice among all of `common`. */
  method RankFrontier(normalizer: Anchors, raw: map<string, CostVector>, n: map<string, CostVector>, common: seq<string>,
                      initiator: Preference, responder: Preference)
      returns (frontier: seq<string>, removed: map<string, DominationExplanation>, selected: string)
    requires common != [] && Distinct(common) && NormalizedBy(normalizer, raw, n, common)
    ensures frontier == Frontier(common, raw) && selected in frontier
    ensures forall id :: id in removed <==> id in common && id !in frontier
    ensures Chosen(common, n, initiator, responder, selected)
  {
    frontier, removed := ParetoFilter(common, raw);
    FrontierKeepsMinimum(normalizer, raw, n, common, initiator);
    var rows := ComputeRegretRows(frontier, n, initiator, responder);
    var choice, ordered := MinimaxRegretSelect(rows.value);
    FrontierIsDistinct(common, raw, common);
    selected := choice.value;
    ChosenIsChoice(frontier, n, initiator, responder, selected);
    FilterPreservesChoice(normalizer, raw, n, common, initiator, responder, selected);
  }

  /** The selection rests on the evidence and is the choice among all of `common`. */
  ghost predicate SelectionAmong(s: Selection, common: seq<string>, initiator: Preference, responder: Preference, evidence: seq<ProfileCost>) {
    && s.common == common && common != []
    && FromEvidence(evidence, common, s.raw) && NormalizedBy(s.anchors, s.raw, s.normalized, common)
    && Chosen(common, s.normalized, initiator, responder, s.selected)
    && s.frontier == Frontier(common, s.raw) && s.selected in s.frontier
    && forall id :: id in s.removed <==> id in common && id !in s.frontier
  }

  datatype Prepared = Prepared(anchors: Anchors, raw: map<string, CostVector>, normalized: map<string, CostVector>)

  /** The raw and the normalized vectors of the candidates. */
  method PrepareVectors(common: seq<string>, evidence: seq<ProfileCost>, anchors: Option<Anchors>)
      returns (r: Result<Prepared, SelectorError>)
    requires common != [] && (anchors.Some? ==> Proper(anchors.value))
    ensures r.Ok? ==> FromEvidence(evidence, common, r.value.raw)
    ensures r.Ok? ==> NormalizedBy(r.value.anchors, r.value.raw, r.value.normalized, common)
    ensures anchors.None? ==> (r.Ok? <==> UsableEvidence(evidence, common))
    ensures anchors.Some? ==> (r.Ok? <==> UsableWith(evidence, common, anchors.value))
    ensures r.Err? ==>
              r.error.MissingCostEvidence? || (if anchors.None? then r.error.ZeroDenominator? else r.error.OutsideUnitInterval?)
    ensures r.Err? ==> (r.error.MissingCostEvidence? <==> exists id :: id in common && !Measured(evidence, id))
  {
    var vectors := CandidateVectors(evidence, common);
    if vectors.Err? {
      return Err(vectors.error);
    }
    var raw := vectors.value;
    assert evidence != [] by { assert Measured(evidence, common[0]); }
    forall id | id in common ensures ProfileCost(id, raw[id]) in evidence { VectorIsListed(evidence, id); }
    var resolved := ResolveAnchors(evidence, anchors);
    if resolved.Err? {
      return Err(resolved.error);
    }
    var normalized := NormalizeAll(common, raw, resolved.value);
    if normalized.Err? {
      return Err(normalized.error);
    }
    r := Ok(Prepared(resolved.value, raw, normalized.value));
  }

  method SelectFromCommon(common: seq<string>, initiator: Preference, responder: Preference,
                          evidence: seq<ProfileCost>, anchors: Option<Anchors>)
      returns (r: Result<Selection, SelectorError>)
    requires common != [] && Distinct(common)
    requires anchors.Some? ==> Proper(anchors.value)
    ensures r.Ok? ==> SelectionAmong(r.value, common, initiator, responder, evidence)
    ensures anchors.None? ==> (r.Ok? <==> UsableEvidence(evidence, common))
    ensures anchors.Some? ==> (r.Ok? <==> UsableWith(evidence, common, anchors.value))
    ensures r.Err? ==> r.error.MissingCostEvidence? || (if anchors.None? then r.error.ZeroDenominator? else r.error.OutsideUnitInterval?)
    ensures r.Err? ==> (r.error.MissingCostEvidence? <==> exists id :: id in common && !Measured(evidence, id))
  {
    var prepared := PrepareVectors(common, evidence, anchors);
    if prepared.Err? {
      return Err(prepared.error);
    }
    var Prepared(normalizer, raw, normalized) := prepared.value;
    var frontier, removed, selected := RankFrontier(normalizer, raw, normalized, common, initiator, responder);
    r := Ok(Selection(common, normalizer, raw, normalized, frontier, removed, selected));
  }

  /** The result is the choice among all common safe profiles, although only
      the Pareto frontier is ranked. */
  method SelectFromSafeSet(catalog: seq<string>, initiatorSafe: seq<string>, responderSafe: seq<string>,
                           initiator: Preference, responder: Preference,
                           evidence: seq<ProfileCost>, anchors: Option<Anchors>)
      returns (r: Result<Selection, SelectorError>)
    requires Distinct(catalog)
    requires anchors.Some? ==> Proper(anchors.value)
    ensures CommonSafeSet(catalog, initiatorSafe, responderSafe) == [] ==> r == Err(EmptyCommonSafeSet)
    ensures r.Ok? ==> SelectionAmong(r.value, CommonSafeSet(catalog, initiatorSafe, responderSafe), initiator, responder, evidence)
    ensures anchors.None? && CommonSafeSet(catalog, initiatorSafe, responderSafe) != [] ==>
              (r.Ok? <==> UsableEvidence(evidence, CommonSafeSet(catalog, initiatorSafe, responderSafe)))
    ensures anchors.Some? && CommonSafeSet(catalog, initiatorSafe, responderSafe) != [] ==>
              (r.Ok? <==> UsableWith(evidence, CommonSafeSet(catalog, initiatorSafe, responderSafe), anchors.value))
    ensures r.Err? ==> r.error.EmptyCommonSafeSet? || r.error.MissingCostEvidence?
                       || (if anchors.None? then r.error.ZeroDenominator? else r.error.OutsideUnitInterval?)
  {
    var common := CommonSafeSet(catalog, initiatorSafe, responderSafe);
    if common == [] {
      return Err(EmptyCommonSafeSet);
    }
    r := SelectFromCommon(common, initiator, responder, evidence, anchors);
  }

  lemma {:induction false} FrontierIsDistinct(ids: seq<string>, raw: map<string, CostVector>, some: seq<string>)
    requires Covers(raw, ids) && Covers(raw, some) && Distinct(some)
    ensures Distinct(Undominated(ids, raw, some))
  {
    if some != [] { FrontierIsDistinct(ids, raw, some[..|some|-1]); }
  }

  // Fairness of the choice.

  /** Every regret is between zero and the largest possible cost. */
  lemma RegretBounds(ids: seq<string>, n: map<string, CostVector>, initiator: Preference, responder: Preference, id: string)
    requires Covers(n, ids) && id in ids && initiator.Valid() && responder.Valid()
    requires forall x, m: Metric :: x in ids ==> 0.0 <= n[x].At(m) <= 1.0
    ensures var row := Row(ids, n, initiator, responder, id);
            0.0 <= row.maximumRegret <= 1.0 && row.maximumRegret <= row.totalRegret <= 2.0
  {
    var li, lr := MinCost(ids, n, initiator), MinCost(ids, n, responder);
    var a :| a in ids && li == WeightedTotal(n[a], initiator);
    var b :| b in ids && lr == WeightedTotal(n[b], responder);
    CostBounds(n[a], initiator);
    CostBounds(n[b], responder);
    CostBounds(n[id], initiator);
    CostBounds(n[id], responder);
  }

  lemma CostBounds(v: CostVector, p: Preference)
    requires p.Valid() && forall m: Metric :: 0.0 <= v.At(m) <= 1.0
    ensures 0.0 <= WeightedTotal(v, p) <= 1.0
  {
    var none, all := CostVector(0.0, 0.0, 0.0), CostVector(1.0, 1.0, 1.0);
    TotalOrder(none, v, p);
    TotalOrder(v, all, p);
    assert WeightedTotal(none, p) == 0.0 && WeightedTotal(all, p) == 1.0;
  }

  ghost predicate Optimal(ids: seq<string>, n: map<string, CostVector>, p: Preference, id: string)
    requires Covers(n, ids) && id in n
  {
    forall other :: other in ids ==> WeightedTotal(n[id], p) <= WeightedTotal(n[other], p)
  }

  lemma ZeroRegretIsJointOptimum(ids: seq<string>, n: map<string, CostVector>, initiator: Preference, responder: Preference, id: string)
    requires Covers(n, ids) && id in ids
    ensures Row(ids, n, initiator, responder, id).maximumRegret == 0.0 <==>
              Optimal(ids, n, initiator, id) && Optimal(ids, n, responder, id)
  {
    var li, lr := MinCost(ids, n, initiator), MinCost(ids, n, responder);
    var a :| a in ids && li == WeightedTotal(n[a], initiator);
    var b :| b in ids && lr == WeightedTotal(n[b], responder);
  }

  /** The chosen profile has zero regret exactly when one profile is best for both. */
  lemma ZeroRegretIffJointOptimum(ids: seq<string>, n: map<string, CostVector>, initiator: Preference, responder: Preference, id: string)
    requires ids != [] && Covers(n, ids) && Chosen(ids, n, initiator, responder, id)
    ensures Row(ids, n, initiator, responder, id).maximumRegret == 0.0 <==>
              exists best :: best in ids && Optimal(ids, n, initiator, best) && Optimal(ids, n, responder, best)
  {
    ZeroRegretIsJointOptimum(ids, n, initiator, responder, id);
    if best :| best in ids && Optimal(ids, n, initiator, best) && Optimal(ids, n, responder, best) {
      ZeroRegretIsJointOptimum(ids, n, initiator, responder, best);
      assert KeyLe(KeyOf(Row(ids, n, initiator, responder, id)), KeyOf(Row(ids, n, initiator, responder, best)));
    }
  }

  /** The agents may exchange roles. */
  lemma ChoiceIsSymmetric(ids: seq<string>, n: map<string, CostVector>, initiator: Preference, responder: Preference, id: string)
    requires ids != [] && Covers(n, ids)
    ensures Chosen(ids, n, initiator, responder, id) <==> Chosen(ids, n, responder, initiator, id)
  {
    assert forall x :: x in ids ==>
      KeyOf(Row(ids, n, initiator, responder, x)) == KeyOf(Row(ids, n, responder, initiator, x));
  }

  /** The order in which candidates are listed is irrelevant. */
  lemma ChoiceIgnoresListing(ids: seq<string>, other: seq<string>, n: map<string, CostVector>,
                             initiator: Preference, responder: Preference, id: string)
    requires ids != [] && other != [] && Covers(n, ids) && forall x :: x in ids <==> x in other
    ensures Chosen(ids, n, initiator, responder, id) <==> Chosen(other, n, initiator, responder, id)
  {
    assert forall x :: x in n ==> Row(ids, n, initiator, responder, x) == Row(other, n, initiator, responder, x);
  }

  // Baselines.

  /** The candidate with the least value, ties broken by identifier. */
  ghost predicate PickedBy(ids: seq<string>, value: string -> real, id: string) {
    id in ids && forall other :: other in ids ==>
      value(id) < value(other) || (value(id) == value(other) && StrLe(id, other))
  }

  method Pick(ids: seq<string>, value: string -> real) returns (id: string)
    requires ids != []
    ensures PickedBy(ids, value, id)
  {
    StrOrder();
    id := ids[0];
    for i := 1 to |ids|
      invariant PickedBy(ids[..i], value, id)
    {
      assert ids[..i+1] == ids[..i] + [ids[i]];
      if value(ids[i]) < value(id) || (value(ids[i]) == value(id) && StrLe(ids[i], id)) {
        id := ids[i];
      }
    }
    assert ids[..|ids|] == ids;
  }

  function CostFor(n: map<string, CostVector>, p: Preference): string -> real {
    (id: string) => if id in n then WeightedTotal(n[id], p) else 0.0
  }

  function TotalFor(n: map<string, CostVector>, initiator: Preference, responder: Preference): string -> real {
    (id: string) => CostFor(n, initiator)(id) + CostFor(n, responder)(id)
  }

  function LargestComponent(n: map<string, CostVector>): string -> real {
    (id: string) => if id in n then Largest(n[id]) else 0.0
  }

  datatype Baselines = Baselines(
    initiatorMinimum: string,
    responderMinimum: string,
    minimumTotal: string,
    minimumComponent: string,
    canonicalFirst: string)

  /** No baseline leaves the worse-off agent with less regret than the choice. */
  method BaselineSelectors(common: seq<string>, n: map<string, CostVector>, initiator: Preference, responder: Preference)
      returns (b: Baselines)
    requires common != [] && Covers(n, common)
    ensures PickedBy(common, CostFor(n, initiator), b.initiatorMinimum)
    ensures PickedBy(common, CostFor(n, responder), b.responderMinimum)
    ensures PickedBy(common, TotalFor(n, initiator, responder), b.minimumTotal)
    ensures PickedBy(common, LargestComponent(n), b.minimumComponent)
    ensures b.canonicalFirst == common[0]
    ensures Optimal(common, n, initiator, b.initiatorMinimum) && Optimal(common, n, responder, b.responderMinimum)
    ensures forall chosen, baseline :: chosen in common && baseline in common
              && Chosen(common, n, initiator, responder, chosen)
              && baseline in {b.initiatorMinimum, b.responderMinimum, b.minimumTotal, b.minimumComponent, b.canonicalFirst}
              ==> Row(common, n, initiator, responder, chosen).maximumRegret
                    <= Row(common, n, initiator, responder, baseline).maximumRegret
  {
    var i := Pick(common, CostFor(n, initiator));
    var r := Pick(common, CostFor(n, responder));
    var t := Pick(common, TotalFor(n, initiator, responder));
    var c := Pick(common, LargestComponent(n));
    b := Baselines(i, r, t, c, common[0]);
    forall chosen, baseline | Chosen(common, n, initiator, responder, chosen) && baseline in common
      ensures Row(common, n, initiator, responder, chosen).maximumRegret
                <= Row(common, n, initiator, responder, baseline).maximumRegret
    {
      assert KeyLe(KeyOf(Row(common, n, initiator, responder, chosen)), KeyOf(Row(common, n, initiator, responder, baseline)));
    }
  }
}
