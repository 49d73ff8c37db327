/** Hierarchical cost ratios (analyze_paired_crypto_costs.py). */
module PairedRatios {
  import opened Wrappers
  import opened Sorting
  import opened Counting
  import opened Descriptive

  // An estimate is the median over the runs of the medians over the replicates of the
  // medians over the blocks of a replicate.

  type Positive = r: real | r > 0.0 witness 1.0

  datatype CostRecord = CostRecord(runId: Option<string>, replicateId: Option<string>, block: Option<int>,
    metrics: map<string, real>)

  datatype CostBlock = CostBlock(runId: string, replicateId: string, block: int,
    recordsByProfile: map<string, CostRecord>)

  datatype EstimateError = NoBlocks | IncompleteBlock | UnknownProfile | MismatchedIdentity | MissingMetric | NotPositive
    | NotTwoRuns

  /** The two costs compared in one block. */
  datatype Observation = Observation(runId: string, replicateId: string, left: Positive, right: Positive)

  // Reading a block.

  function MetricValue(record: CostRecord, metric: string): Result<Positive, EstimateError> {
    if metric !in record.metrics then Err(MissingMetric)
    else if record.metrics[metric] <= 0.0 then Err(NotPositive)
    else Ok(record.metrics[metric])
  }

  /** A record may leave out where it belongs, but may not contradict its block. */
  predicate IdentityMatches(block: CostBlock, record: CostRecord) {
    && (record.runId == None || record.runId == Some(block.runId))
    && (record.replicateId == None || record.replicateId == Some(block.replicateId))
    && (record.block == None || record.block == Some(block.block))
  }

  function Observe(profiles: set<string>, block: CostBlock, left: string, right: string, metric: string): Result<Observation, EstimateError> {
    if block.recordsByProfile.Keys != profiles then Err(IncompleteBlock)
    else if left !in profiles || right !in profiles then Err(UnknownProfile)
    else
      var leftRecord, rightRecord := block.recordsByProfile[left], block.recordsByProfile[right];
      if !IdentityMatches(block, leftRecord) || !IdentityMatches(block, rightRecord) then Err(MismatchedIdentity)
      else
        var leftValue, rightValue := MetricValue(leftRecord, metric), MetricValue(rightRecord, metric);
        if leftValue.Err? then Err(leftValue.error)
        else if rightValue.Err? then Err(rightValue.error)
        else Ok(Observation(block.runId, block.replicateId, leftValue.value, rightValue.value))
  }

  predicate Readable(profiles: set<string>, blocks: seq<CostBlock>, left: string, right: string, metric: string) {
    forall k :: 0 <= k < |blocks| ==> Observe(profiles, blocks[k], left, right, metric).Ok?
  }

  function Observations(profiles: set<string>, blocks: seq<CostBlock>, left: string, right: string, metric: string): seq<Observation>
    requires Readable(profiles, blocks, left, right, metric)
  {
    seq(|blocks|, k requires 0 <= k < |blocks| => Observe(profiles, blocks[k], left, right, metric).value)
  }

  // Grouping by run and replicate.

  function InRun(observations: seq<Observation>, run: string): seq<Observation> {
    if observations == [] then []
    else
      var last := observations[|observations|-1];
      InRun(observations[..|observations|-1], run) + if last.runId == run then [last] else []
  }

  function InReplicate(observations: seq<Observation>, run: string, replicate: string): seq<Observation> {
    if observations == [] then []
    else
      var last := observations[|observations|-1];
      InReplicate(observations[..|observations|-1], run, replicate)
      + if last.runId == run && last.replicateId == replicate then [last] else []
  }

  type Groups = map<string, map<string, seq<real>>>

  function Add(groups: Groups, o: Observation, value: real): Groups {
    var inner := if o.runId in groups then groups[o.runId] else map[];
    var values := if o.replicateId in inner then inner[o.replicateId] else [];
    groups[o.runId := inner[o.replicateId := values + [value]]]
  }

  ghost predicate Grouped(groups: Groups, observations: seq<Observation>, f: Observation -> real) {
    && (forall run :: run in groups <==> InRun(observations, run) != [])
    && (forall run :: run in groups ==> GroupedRun(groups[run], observations, run, f))
  }

  ghost predicate GroupedRun(inner: map<string, seq<real>>, observations: seq<Observation>, run: string, f: Observation -> real) {
    && (forall rep :: rep in inner <==> InReplicate(observations, run, rep) != [])
    && (forall rep :: rep in inner ==> inner[rep] == Map(f, InReplicate(observations, run, rep)))
  }

  lemma {:induction false} RunsHaveReplicates(observations: seq<Observation>, run: string)
    ensures InRun(observations, run) == [] ==> forall rep :: InReplicate(observations, run, rep) == []
    ensures InRun(observations, run) != [] ==> exists rep :: InReplicate(observations, run, rep) != []
  {
    if observations != [] {
      var front, last := observations[..|observations|-1], observations[|observations|-1];
      RunsHaveReplicates(front, run);
      if InRun(front, run) != [] {
        var rep :| InReplicate(front, run, rep) != [];
        assert InReplicate(observations, run, rep) != [];
      } else if last.runId == run {
        assert InReplicate(observations, run, last.replicateId) != [];
      }
    }
  }

  lemma AddKeepsGroups(groups: Groups, observations: seq<Observation>, o: Observation, f: Observation -> real)
    requires Grouped(groups, observations, f)
    ensures Grouped(Add(groups, o, f(o)), observations + [o], f)
  {
    var all := observations + [o];
    assert all[..|observations|] == observations;
    var next := Add(groups, o, f(o));
    forall run | run in next ensures GroupedRun(next[run], all, run, f) {
      if run !in groups { RunsHaveReplicates(observations, run); }
      AddKeepsRun(groups, observations, o, f, run);
    }
  }

  lemma AddKeepsRun(groups: Groups, observations: seq<Observation>, o: Observation, f: Observation -> real, run: string)
    requires Grouped(groups, observations, f) && run in Add(groups, o, f(o))
    requires run !in groups ==> forall rep :: InReplicate(observations, run, rep) == []
    ensures GroupedRun(Add(groups, o, f(o))[run], observations + [o], run, f)
  {
    var all, inner := observations + [o], Add(groups, o, f(o))[run];
    assert run in groups ==> GroupedRun(groups[run], observations, run, f);
    forall rep
      ensures rep in inner <==> InReplicate(all, run, rep) != []
      ensures rep in inner ==> inner[rep] == Map(f, InReplicate(all, run, rep))
    {
      InReplicateNext(observations, o, run, rep, f);
    }
  }

  lemma InReplicateNext(observations: seq<Observation>, o: Observation, run: string, rep: string, f: Observation -> real)
    ensures var before, after := InReplicate(observations, run, rep), InReplicate(observations + [o], run, rep);
            if o.runId == run && o.replicateId == rep then after == before + [o] && Map(f, after) == Map(f, before) + [f(o)]
            else after == before
  {
    assert (observations + [o])[..|observations|] == observations;
  }

  // The identifiers that occur, sorted.

  function RunOf(): Observation -> string { (o: Observation) => o.runId }

  function ReplicateOf(): Observation -> string { (o: Observation) => o.replicateId }

  /** Each identifier once, in sorted order. */
  function Listing(ids: seq<string>): (r: seq<string>)
    ensures forall id :: id in r <==> id in ids
    ensures SortedBy(r, StrLe) && Distinct(r)
  {
    StrOrder();
    SortMembers(Unique(ids), StrLe);
    SortSorted(Unique(ids), StrLe);
    UniqueIsDistinct(ids);
    SortDistinct(Unique(ids), StrLe);
    SortStrings(Unique(ids))
  }

  lemma ListingIsUnique(a: seq<string>, b: seq<string>)
    requires SortedBy(a, StrLe) && Distinct(a) && SortedBy(b, StrLe) && Distinct(b)
    requires forall id :: id in a <==> id in b
    ensures a == b
  {
    StrOrder();
    DistinctIffMultiplicity(a);
    DistinctIffMultiplicity(b);
    forall id ensures multiset(a)[id] == multiset(b)[id] {
      assert id in a <==> id in multiset(a);
      assert id in b <==> id in multiset(b);
    }
    SortedUnique(a, b, StrLe);
  }

  lemma {:induction false} InRunMembers(observations: seq<Observation>, run: string)
    ensures forall o :: o in InRun(observations, run) <==> o in observations && o.runId == run
  {
    if observations != [] {
      InRunMembers(observations[..|observations|-1], run);
      assert observations == observations[..|observations|-1] + [observations[|observations|-1]];
    }
  }

  lemma {:induction false} InReplicateMembers(observations: seq<Observation>, run: string, replicate: string)
    ensures forall o :: o in InReplicate(observations, run, replicate) <==>
                          o in observations && o.runId == run && o.replicateId == replicate
  {
    if observations != [] {
      InReplicateMembers(observations[..|observations|-1], run, replicate);
      assert observations == observations[..|observations|-1] + [observations[|observations|-1]];
    }
  }

  function RunIds(observations: seq<Observation>): seq<string> {
    Listing(Map(RunOf(), observations))
  }

  function ReplicateIds(observations: seq<Observation>, run: string): seq<string> {
    Listing(Map(ReplicateOf(), InRun(observations, run)))
  }

  lemma RunIdsOccur(observations: seq<Observation>)
    ensures forall run :: run in RunIds(observations) <==> InRun(observations, run) != []
    ensures observations != [] ==> RunIds(observations) != []
  {
    var ids := Map(RunOf(), observations);
    forall run ensures run in ids <==> InRun(observations, run) != [] {
      InRunMembers(observations, run);
      if run in ids {
        var k :| 0 <= k < |ids| && ids[k] == run;
        assert observations[k] in InRun(observations, run);
      }
      if InRun(observations, run) != [] {
        assert InRun(observations, run)[0] in observations;
        var k :| 0 <= k < |observations| && observations[k] == InRun(observations, run)[0];
        assert ids[k] == run;
      }
    }
    if observations != [] { assert ids[0] in RunIds(observations); }
  }

  lemma ReplicateIdsOccur(observations: seq<Observation>, run: string)
    ensures forall rep :: rep in ReplicateIds(observations, run) <==> InReplicate(observations, run, rep) != []
    ensures InRun(observations, run) != [] ==> ReplicateIds(observations, run) != []
  {
    var members := InRun(observations, run);
    var ids := Map(ReplicateOf(), members);
    InRunMembers(observations, run);
    forall rep ensures rep in ids <==> InReplicate(observations, run, rep) != [] {
      InReplicateMembers(observations, run, rep);
      if rep in ids {
        var k :| 0 <= k < |ids| && ids[k] == rep;
        assert members[k] in InReplicate(observations, run, rep);
      }
      if InReplicate(observations, run, rep) != [] {
        assert InReplicate(observations, run, rep)[0] in members;
        var k :| 0 <= k < |members| && members[k] == InReplicate(observations, run, rep)[0];
        assert ids[k] == rep;
      }
    }
    if members != [] { assert ids[0] in ReplicateIds(observations, run); }
  }

  // The three levels.

  function ReplicateMedian(observations: seq<Observation>, run: string, replicate: string, f: Observation -> real): real
    requires InReplicate(observations, run, replicate) != []
  {
    Centre(Map(f, InReplicate(observations, run, replicate)))
  }

  function ReplicateMedians(observations: seq<Observation>, run: string, f: Observation -> real): seq<real> {
    ReplicateIdsOccur(observations, run);
    var ids := ReplicateIds(observations, run);
    seq(|ids|, k requires 0 <= k < |ids| => ReplicateMedian(observations, run, ids[k], f))
  }

  function RunMedian(observations: seq<Observation>, run: string, f: Observation -> real): real
    requires InRun(observations, run) != []
  {
    ReplicateIdsOccur(observations, run);
    Centre(ReplicateMedians(observations, run, f))
  }

  function RunMedians(observations: seq<Observation>, f: Observation -> real): seq<real> {
    RunIdsOccur(observations);
    var ids := RunIds(observations);
    seq(|ids|, k requires 0 <= k < |ids| => RunMedian(observations, ids[k], f))
  }

  function Hierarchical(observations: seq<Observation>, f: Observation -> real): real
    requires observations != []
  {
    RunIdsOccur(observations);
    Centre(RunMedians(observations, f))
  }

  // A relation between observations that medians keep, lifted through the levels.

  ghost predicate Pointwise(R: (real, real) -> bool, a: seq<real>, b: seq<real>) {
    |a| == |b| && forall k :: 0 <= k < |a| ==> R(a[k], b[k])
  }

  /** Medians of lists of the admitted sizes keep the relation. */
  ghost predicate KeptByCentre(R: (real, real) -> bool, admits: nat -> bool) {
    forall a: seq<real>, b: seq<real> :: a != [] && admits(|a|) && Pointwise(R, a, b) ==> R(Centre(a), Centre(b))
  }

  /** Every run has an admitted number of replicates, and every replicate of blocks. */
  ghost predicate ShapedWithin(observations: seq<Observation>, admits: nat -> bool) {
    && (forall run :: run in RunIds(observations) ==> admits(|ReplicateIds(observations, run)|))
    && forall run, rep :: InReplicate(observations, run, rep) != [] ==> admits(|InReplicate(observations, run, rep)|)
  }

  lemma LiftToReplicate(observations: seq<Observation>, run: string, rep: string, f: Observation -> real,
                        g: Observation -> real, R: (real, real) -> bool, admits: nat -> bool)
    requires KeptByCentre(R, admits) && InReplicate(observations, run, rep) != []
    requires admits(|InReplicate(observations, run, rep)|) && forall o :: o in observations ==> R(f(o), g(o))
    ensures R(ReplicateMedian(observations, run, rep, f), ReplicateMedian(observations, run, rep, g))
  {
    var members := InReplicate(observations, run, rep);
    InReplicateMembers(observations, run, rep);
    assert forall k :: 0 <= k < |members| ==> members[k] in observations;
    assert Pointwise(R, Map(f, members), Map(g, members));
  }

  lemma LiftToRun(observations: seq<Observation>, run: string, f: Observation -> real,
                  g: Observation -> real, R: (real, real) -> bool, admits: nat -> bool)
    requires KeptByCentre(R, admits) && ShapedWithin(observations, admits) && run in RunIds(observations)
    requires InRun(observations, run) != [] && forall o :: o in observations ==> R(f(o), g(o))
    ensures Pointwise(R, ReplicateMedians(observations, run, f), ReplicateMedians(observations, run, g))
    ensures R(RunMedian(observations, run, f), RunMedian(observations, run, g))
  {
    ReplicateIdsOccur(observations, run);
    var ids := ReplicateIds(observations, run);
    forall k | 0 <= k < |ids|
      ensures R(ReplicateMedians(observations, run, f)[k], ReplicateMedians(observations, run, g)[k])
    {
      assert ids[k] in ids;
      LiftToReplicate(observations, run, ids[k], f, g, R, admits);
    }
    assert Pointwise(R, ReplicateMedians(observations, run, f), ReplicateMedians(observations, run, g));
  }

  lemma LiftThroughLevels(observations: seq<Observation>, f: Observation -> real,
                          g: Observation -> real, R: (real, real) -> bool, admits: nat -> bool)
    requires observations != [] && KeptByCentre(R, admits) && admits(|RunIds(observations)|) && ShapedWithin(observations, admits)
    requires forall o :: o in observations ==> R(f(o), g(o))
    ensures Pointwise(R, RunMedians(observations, f), RunMedians(observations, g))
    ensures R(Hierarchical(observations, f), Hierarchical(observations, g))
  {
    RunIdsOccur(observations);
    var ids := RunIds(observations);
    forall k | 0 <= k < |ids| ensures R(RunMedians(observations, f)[k], RunMedians(observations, g)[k]) {
      assert ids[k] in ids;
      LiftToRun(observations, ids[k], f, g, R, admits);
    }
    assert Pointwise(R, RunMedians(observations, f), RunMedians(observations, g));
  }

  // Reciprocals and negations.

  function Ratio(): Observation -> real { (o: Observation) => o.left / o.right }

  function InverseRatio(): Observation -> real { (o: Observation) => o.right / o.left }

  function Difference(): Observation -> real { (o: Observation) => o.left - o.right }

  function InverseDifference(): Observation -> real { (o: Observation) => o.right - o.left }

  predicate AtLeastReciprocal(x: real, y: real) { x > 0.0 && y > 0.0 && x * y >= 1.0 }

  predicate Reciprocal(x: real, y: real) { x > 0.0 && y > 0.0 && x * y == 1.0 }

  predicate Opposite(x: real, y: real) { y == -x }

  predicate AnySize(n: nat) { true }

  predicate OddSize(n: nat) { n % 2 == 1 }

  function Invert(x: real): real { if x == 0.0 then 0.0 else 1.0 / x }

  lemma InvertIsAntitone(values: seq<real>)
    requires forall k :: 0 <= k < |values| ==> values[k] > 0.0
    ensures Antitone(Invert, values)
  {
    forall x, y | x in values && y in values ensures x <= y <==> Invert(y) <= Invert(x) { InvertCompare(x, y); }
  }

  lemma InvertCompare(x: real, y: real)
    requires x > 0.0 && y > 0.0
    ensures x <= y <==> Invert(y) <= Invert(x)
  {
    CompareInverses(x, Invert(x), y, Invert(y));
  }

  lemma Scale(k: real, a: real, b: real)
    requires k > 0.0
    ensures a <= b <==> k * a <= k * b
  {
    if a <= b { assert k * (b - a) >= 0.0; } else { assert k * (a - b) > 0.0; }
  }

  lemma Associate(x: real, y: real, z: real)
    ensures x * (y * z) == (x * y) * z
  {
  }

  lemma CompareInverses(x: real, p: real, y: real, q: real)
    requires x > 0.0 && p > 0.0 && y > 0.0 && q > 0.0 && x * p == 1.0 && y * q == 1.0
    ensures x <= y <==> q <= p
  {
    Scale(p, x, y);
    Scale(q, p * x, p * y);
    assert q * (p * x) == q;
    Associate(q, y, p);
    assert q * (p * y) == p;
  }

  lemma ProductIsPositive(x: real, y: real)
    requires x > 0.0 && y > 0.0
    ensures x * y > 0.0
  {
  }

  lemma ShrinkingFactor(d: real, u: real)
    requires d > 0.0 && (d + 1.0) * u == d
    ensures u < d
  {
    Scale(d + 1.0, u, 0.0);
    ProductIsPositive(d, u);
    assert (d + 1.0) * u == d * u + u;
  }

  lemma BelowInverse(d: real, s: real)
    requires d > 0.0 && (d + 1.0) * s == 1.0
    ensures d + s > 1.0
  {
    var u := 1.0 - s;
    assert (d + 1.0) * u == (d + 1.0) - (d + 1.0) * s;
    ShrinkingFactor(d, u);
  }

  lemma SumOfInverses(t: real, s: real)
    requires t > 0.0 && s > 0.0 && t * s == 1.0
    ensures t + s >= 2.0 && (t + s == 2.0 <==> t == 1.0)
  {
    if t > 1.0 {
      BelowInverse(t - 1.0, s);
    } else if s > 1.0 {
      BelowInverse(s - 1.0, t);
    } else {
      assert (1.0 - t) * s >= 0.0;
    }
  }

  /** The mean of two numbers times the mean of their inverses. */
  lemma MeansOfInverses(x: real, p: real, y: real, q: real)
    requires x > 0.0 && p > 0.0 && y > 0.0 && q > 0.0 && x * p == 1.0 && y * q == 1.0
    ensures (x + y) / 2.0 * ((q + p) / 2.0) >= 1.0
    ensures (x + y) / 2.0 * ((q + p) / 2.0) == 1.0 <==> x == y
  {
    var t, s := x * q, y * p;
    assert t > 0.0 && s > 0.0;
    assert t * s == (x * p) * (y * q);
    SumOfInverses(t, s);
    assert (x + y) * (q + p) == 2.0 + t + s;
    if t == 1.0 { assert x * (q * y) == y; }
    assert (x + y) / 2.0 * ((q + p) / 2.0) == (x + y) * (q + p) / 4.0;
  }

  lemma OrderedInverse(a: seq<real>, b: seq<real>, k: nat)
    requires Image(Invert, a, b) && Antitone(Invert, a) && k < |a|
    requires Ordered(a)[k] > 0.0
    ensures Reciprocal(Ordered(a)[k], Ordered(b)[|a|-1-k])
  {
    RankReverses(Invert, a, b, |a|-1-k);
    InverseIsReciprocal(Ordered(a)[k], Ordered(b)[|a|-1-k]);
  }

  lemma InverseIsReciprocal(x: real, y: real)
    requires x > 0.0 && y == Invert(x)
    ensures Reciprocal(x, y)
  {
  }

  lemma OrderedStaysPositive(a: seq<real>)
    requires forall k :: 0 <= k < |a| ==> a[k] > 0.0
    ensures forall k :: 0 <= k < |a| ==> Ordered(a)[k] > 0.0
  {
    OrderedFacts(a);
    MembersOfPermutation(Ordered(a), a);
    forall k | 0 <= k < |a| ensures Ordered(a)[k] > 0.0 {
      assert Ordered(a)[k] in a;
    }
  }

  /** No two different observations are averaged. */
  predicate MiddlesAgree(a: seq<real>)
    requires a != []
  {
    |a| % 2 == 1 || Ordered(a)[|a|/2-1] == Ordered(a)[|a|/2]
  }

  /** The median of the inverses is the inverse of the median exactly when no two
      different observations are averaged; otherwise it is larger. */
  lemma CentreOfInverses(a: seq<real>, b: seq<real>)
    requires a != [] && Image(Invert, a, b) && forall k :: 0 <= k < |a| ==> a[k] > 0.0
    ensures Centre(a) > 0.0 && Centre(b) > 0.0 && Centre(a) * Centre(b) >= 1.0
    ensures Centre(a) * Centre(b) == 1.0 <==> MiddlesAgree(a)
  {
    MiddlesAreReciprocal(a, b);
    if |a| % 2 == 0 {
      EvenCentres(Ordered(a), Ordered(b), Centre(a), Centre(b));
    } else {
      assert Reciprocal(Centre(a), Centre(b));
    }
  }

  lemma MiddlesAreReciprocal(a: seq<real>, b: seq<real>)
    requires a != [] && Image(Invert, a, b) && forall k :: 0 <= k < |a| ==> a[k] > 0.0
    ensures Reciprocal(Ordered(a)[|a|/2], Ordered(b)[|a|-1-|a|/2])
    ensures |a| % 2 == 0 ==> Reciprocal(Ordered(a)[|a|/2-1], Ordered(b)[|a|/2])
  {
    InvertIsAntitone(a);
    OrderedStaysPositive(a);
    OrderedInverse(a, b, |a| / 2);
    if |a| % 2 == 0 { OrderedInverse(a, b, |a| / 2 - 1); }
  }

  lemma EvenCentres(a: seq<real>, b: seq<real>, m: real, w: real)
    requires |a| == |b| > 0 && |a| % 2 == 0
    requires Reciprocal(a[|a|/2], b[|a|/2-1]) && Reciprocal(a[|a|/2-1], b[|a|/2])
    requires m == (a[|a|/2-1] + a[|a|/2]) / 2.0 && w == (b[|a|/2-1] + b[|a|/2]) / 2.0
    ensures m > 0.0 && w > 0.0 && m * w >= 1.0
    ensures m * w == 1.0 <==> a[|a|/2-1] == a[|a|/2]
  {
    var mid := |a| / 2;
    MeansOfInverses(a[mid-1], b[mid], a[mid], b[mid-1]);
  }

  lemma DominatesInverse(x: real, y: real)
    requires AtLeastReciprocal(x, y)
    ensures Invert(x) <= y
    ensures x * y == 1.0 ==> y == Invert(x)
  {
    var p := Invert(x);
    Associate(p, x, y);
    Scale(p, 1.0, x * y);
  }

  lemma ProductGrows(x: real, p: real, y: real)
    requires AtLeastReciprocal(x, p) && p <= y
    ensures AtLeastReciprocal(x, y)
  {
    assert x * (y - p) >= 0.0;
  }

  lemma DominatesInverses(a: seq<real>, b: seq<real>)
    requires Pointwise(AtLeastReciprocal, a, b)
    ensures forall k :: 0 <= k < |a| ==> Map(Invert, a)[k] <= b[k] && a[k] > 0.0
  {
    forall k | 0 <= k < |a| ensures Map(Invert, a)[k] <= b[k] && a[k] > 0.0 {
      assert AtLeastReciprocal(a[k], b[k]);
      DominatesInverse(a[k], b[k]);
    }
  }

  lemma InverseCentres(a: seq<real>, inverses: seq<real>)
    requires a != [] && Image(Invert, a, inverses) && forall k :: 0 <= k < |a| ==> a[k] > 0.0
    ensures AtLeastReciprocal(Centre(a), Centre(inverses))
  {
    CentreOfInverses(a, inverses);
  }

  lemma AtLeastReciprocalCentres(a: seq<real>, b: seq<real>)
    requires a != [] && Pointwise(AtLeastReciprocal, a, b)
    ensures AtLeastReciprocal(Centre(a), Centre(b))
  {
    var inverses := Map(Invert, a);
    DominatesInverses(a, b);
    InverseCentres(a, inverses);
    CentreIsMonotone(inverses, b);
    ProductGrows(Centre(a), Centre(inverses), Centre(b));
  }

  /** No averaging among `a`, and most of `b` is at most the inverse of the median of `a`. */
  predicate Tight(a: seq<real>, b: seq<real>)
    requires a != []
  {
    MiddlesAgree(a) && 2 * Count(b, AtMost(Invert(Centre(a)))) > |b|
  }

  lemma MostAtMost(b: seq<real>, v: real)
    requires b != [] && (|b| % 2 == 0 ==> Ordered(b)[|b|/2-1] >= v)
    ensures Centre(b) <= v <==> 2 * Count(b, AtMost(v)) > |b|
  {
    OrderedFacts(b);
    RankIffCount(b, |b| / 2, v);
  }

  lemma LowerMiddles(a: seq<real>, inverses: seq<real>, b: seq<real>)
    requires a != [] && |b| == |a| && Image(Invert, a, inverses) && forall k :: 0 <= k < |a| ==> a[k] > 0.0
    requires MiddlesAgree(a) && forall k :: 0 <= k < |a| ==> inverses[k] <= b[k]
    ensures |b| % 2 == 0 ==> Ordered(b)[|b|/2-1] >= Invert(Centre(a))
  {
    if |b| % 2 == 0 {
      MiddlesAreReciprocal(a, inverses);
      DominatesInverse(Ordered(a)[|a|/2], Ordered(inverses)[|a|/2-1]);
      RankIsMonotone(inverses, b, |b| / 2 - 1);
    }
  }

  lemma AboveInverse(x: real, w: real, y: real)
    requires AtLeastReciprocal(x, w) && w <= y && x * w != 1.0
    ensures x * y != 1.0
  {
    Scale(x, w, y);
    var p, q := x * w, x * y;
    assert 1.0 < p <= q;
  }

  lemma ExactInverse(x: real, w: real, y: real)
    requires Reciprocal(x, w) && w <= y
    ensures x * y == 1.0 <==> y <= Invert(x)
  {
    DominatesInverse(x, w);
    Scale(x, y, w);
    assert w == Invert(x);
  }

  lemma TightMeansAtMostInverse(a: seq<real>, inverses: seq<real>, b: seq<real>)
    requires a != [] && |b| == |a| && Image(Invert, a, inverses) && forall k :: 0 <= k < |a| ==> a[k] > 0.0
    requires forall k :: 0 <= k < |a| ==> inverses[k] <= b[k]
    ensures Tight(a, b) <==> MiddlesAgree(a) && Centre(b) <= Invert(Centre(a))
  {
    if MiddlesAgree(a) {
      LowerMiddles(a, inverses, b);
      MostAtMost(b, Invert(Centre(a)));
    }
  }

  lemma ExactIff(x: real, w: real, y: real)
    requires AtLeastReciprocal(x, w) && w <= y
    ensures Reciprocal(x, y) <==> x * w == 1.0 && y <= Invert(x)
  {
    if x * w == 1.0 { ExactInverse(x, w, y); } else { AboveInverse(x, w, y); }
  }

  lemma ExactMeansAtMostInverse(a: seq<real>, inverses: seq<real>, b: seq<real>)
    requires a != [] && |b| == |a| && Image(Invert, a, inverses) && forall k :: 0 <= k < |a| ==> a[k] > 0.0
    requires forall k :: 0 <= k < |a| ==> inverses[k] <= b[k]
    ensures Reciprocal(Centre(a), Centre(b)) <==> MiddlesAgree(a) && Centre(b) <= Invert(Centre(a))
  {
    CentreOfInverses(a, inverses);
    CentreIsMonotone(inverses, b);
    ExactIff(Centre(a), Centre(inverses), Centre(b));
  }

  /** When two lists are at least reciprocal place by place, so are their medians, and
      exactly reciprocal just when the lists are tight. */
  lemma ReciprocalCentres(a: seq<real>, b: seq<real>)
    requires a != [] && Pointwise(AtLeastReciprocal, a, b)
    ensures AtLeastReciprocal(Centre(a), Centre(b))
    ensures Reciprocal(Centre(a), Centre(b)) <==> Tight(a, b)
  {
    DominatesInverses(a, b);
    AtLeastReciprocalCentres(a, b);
    TightMeansAtMostInverse(a, Map(Invert, a), b);
    ExactMeansAtMostInverse(a, Map(Invert, a), b);
  }

  lemma CentreKeepsAtLeastReciprocal()
    ensures KeptByCentre(AtLeastReciprocal, AnySize)
  {
    forall a: seq<real>, b: seq<real> | a != [] && Pointwise(AtLeastReciprocal, a, b)
      ensures AtLeastReciprocal(Centre(a), Centre(b))
    {
      AtLeastReciprocalCentres(a, b);
    }
  }

  lemma OddCentreKeepsReciprocal()
    ensures KeptByCentre(Reciprocal, OddSize)
  {
    forall a: seq<real>, b: seq<real> | a != [] && OddSize(|a|) && Pointwise(Reciprocal, a, b)
      ensures Reciprocal(Centre(a), Centre(b))
    {
      forall k | 0 <= k < |a| ensures b[k] == Invert(a[k]) && a[k] > 0.0 {
        assert Reciprocal(a[k], b[k]);
        DominatesInverse(a[k], b[k]);
      }
      CentreOfInverses(a, b);
    }
  }

  lemma CentreKeepsOpposite()
    ensures KeptByCentre(Opposite, AnySize)
  {
    forall a: seq<real>, b: seq<real> | a != [] && Pointwise(Opposite, a, b) ensures Opposite(Centre(a), Centre(b)) {
      forall k | 0 <= k < |a| ensures b[k] == Negate(a[k]) { assert Opposite(a[k], b[k]); }
      CentreOfNegation(a, b);
    }
  }

  // Swapping the compared profiles.

  function SwapSides(o: Observation): Observation { o.(left := o.right, right := o.left) }

  lemma {:induction false} SwapKeepsRun(observations: seq<Observation>, run: string)
    ensures InRun(Map(SwapSides, observations), run) == Map(SwapSides, InRun(observations, run))
  {
    if observations != [] {
      var front, last := observations[..|observations|-1], observations[|observations|-1];
      SwapKeepsRun(front, run);
      assert Map(SwapSides, observations)[..|observations|-1] == Map(SwapSides, front);
      assert Map(SwapSides, InRun(front, run) + [last]) == Map(SwapSides, InRun(front, run)) + [SwapSides(last)];
    }
  }

  lemma {:induction false} SwapKeepsReplicate(observations: seq<Observation>, run: string, rep: string)
    ensures InReplicate(Map(SwapSides, observations), run, rep) == Map(SwapSides, InReplicate(observations, run, rep))
  {
    if observations != [] {
      var front, last := observations[..|observations|-1], observations[|observations|-1];
      SwapKeepsReplicate(front, run, rep);
      assert Map(SwapSides, observations)[..|observations|-1] == Map(SwapSides, front);
      assert Map(SwapSides, InReplicate(front, run, rep) + [last]) == Map(SwapSides, InReplicate(front, run, rep)) + [SwapSides(last)];
    }
  }

  ghost predicate Mirrors(f: Observation -> real, g: Observation -> real) {
    forall o :: f(SwapSides(o)) == g(o)
  }

  lemma SwapRunMedian(observations: seq<Observation>, run: string, f: Observation -> real, g: Observation -> real)
    requires Mirrors(f, g) && InRun(observations, run) != []
    ensures InRun(Map(SwapSides, observations), run) != []
    ensures RunMedian(Map(SwapSides, observations), run, f) == RunMedian(observations, run, g)
  {
    var swapped := Map(SwapSides, observations);
    SwapKeepsRun(observations, run);
    assert Map(ReplicateOf(), InRun(swapped, run)) == Map(ReplicateOf(), InRun(observations, run));
    ReplicateIdsOccur(observations, run);
    ReplicateIdsOccur(swapped, run);
    var ids := ReplicateIds(observations, run);
    forall k | 0 <= k < |ids|
      ensures ReplicateMedians(swapped, run, f)[k] == ReplicateMedians(observations, run, g)[k]
    {
      assert ids[k] in ids;
      SwapKeepsReplicate(observations, run, ids[k]);
      assert Map(f, InReplicate(swapped, run, ids[k])) == Map(g, InReplicate(observations, run, ids[k]));
    }
    assert ReplicateMedians(swapped, run, f) == ReplicateMedians(observations, run, g);
  }

  lemma SwapHierarchical(observations: seq<Observation>, f: Observation -> real, g: Observation -> real)
    requires observations != [] && Mirrors(f, g)
    ensures RunMedians(Map(SwapSides, observations), f) == RunMedians(observations, g)
    ensures Hierarchical(Map(SwapSides, observations), f) == Hierarchical(observations, g)
  {
    var swapped := Map(SwapSides, observations);
    assert Map(RunOf(), swapped) == Map(RunOf(), observations);
    RunIdsOccur(observations);
    RunIdsOccur(swapped);
    var ids := RunIds(observations);
    forall k | 0 <= k < |ids| ensures RunMedians(swapped, f)[k] == RunMedians(observations, g)[k] {
      assert ids[k] in ids;
      SwapRunMedian(observations, ids[k], f, g);
    }
    assert RunMedians(swapped, f) == RunMedians(observations, g);
  }

  lemma RatiosAreReciprocal(o: Observation)
    ensures Reciprocal(Ratio()(o), InverseRatio()(o)) && AtLeastReciprocal(Ratio()(o), InverseRatio()(o))
    ensures Opposite(Difference()(o), InverseDifference()(o))
  {
    Quotients(o.left, o.right);
  }

  lemma Quotients(a: real, b: real)
    requires a > 0.0 && b > 0.0
    ensures a / b > 0.0 && b / a > 0.0 && (a / b) * (b / a) == 1.0
  {
    var x, y := a / b, b / a;
    assert x * b == a && y * a == b;
    Associate(x, y, a);
    Scale(a, x * y, 1.0);
    Scale(a, 1.0, x * y);
  }

  /** Independently aggregated, the two directions of a ratio multiply to at least one. */
  lemma DirectionsMultiplyToAtLeastOne(observations: seq<Observation>)
    requires observations != []
    ensures AtLeastReciprocal(Hierarchical(observations, Ratio()), Hierarchical(Map(SwapSides, observations), Ratio()))
  {
    CentreKeepsAtLeastReciprocal();
    forall o ensures AtLeastReciprocal(Ratio()(o), InverseRatio()(o)) { RatiosAreReciprocal(o); }
    LiftThroughLevels(observations, Ratio(), InverseRatio(), AtLeastReciprocal, AnySize);
    SwapHierarchical(observations, Ratio(), InverseRatio());
  }

  // The estimate demands two runs. When its two directions are exact reciprocals.

  lemma CentreOfTwo(a: seq<real>)
    requires |a| == 2
    ensures Centre(a) == (a[0] + a[1]) / 2.0
  {
    var ordered := Ordered(a);
    OrderedFacts(a);
    assert a == [a[0], a[1]] && ordered == [ordered[0], ordered[1]];
    assert multiset{ordered[0], ordered[1]} == multiset{a[0], a[1]};
    assert ordered[0] in multiset{a[0], a[1]} && ordered[1] in multiset{a[0], a[1]};
  }

  lemma ExactMeans(x: real, y: real, u: real, v: real)
    requires AtLeastReciprocal(x, u) && AtLeastReciprocal(y, v)
    ensures Reciprocal((x + y) / 2.0, (u + v) / 2.0) <==> x == y && Reciprocal(x, u) && Reciprocal(y, v)
  {
    var p, q := Invert(x), Invert(y);
    InverseIsReciprocal(x, p);
    InverseIsReciprocal(y, q);
    DominatesInverse(x, u);
    DominatesInverse(y, v);
    MeansOfInverses(x, p, y, q);
    ExactIff((x + y) / 2.0, (q + p) / 2.0, (u + v) / 2.0);
  }

  /** The medians over two runs are exactly reciprocal just when the runs agree and each is. */
  lemma ReciprocalOfTwo(a: seq<real>, b: seq<real>)
    requires |a| == 2 && Pointwise(AtLeastReciprocal, a, b)
    ensures Reciprocal(Centre(a), Centre(b)) <==> a[0] == a[1] && Reciprocal(a[0], b[0]) && Reciprocal(a[1], b[1])
  {
    assert AtLeastReciprocal(a[0], b[0]) && AtLeastReciprocal(a[1], b[1]);
    CentreOfTwo(a);
    CentreOfTwo(b);
    ExactMeans(a[0], a[1], b[0], b[1]);
  }

  /** The medians of a run are exactly reciprocal just when its replicate medians are tight. */
  lemma RunIsExactIff(observations: seq<Observation>, run: string)
    requires run in RunIds(observations) && InRun(observations, run) != []
    ensures ReplicateMedians(observations, run, Ratio()) != []
    ensures Reciprocal(RunMedian(observations, run, Ratio()), RunMedian(observations, run, InverseRatio())) <==>
              Tight(ReplicateMedians(observations, run, Ratio()), ReplicateMedians(observations, run, InverseRatio()))
  {
    CentreKeepsAtLeastReciprocal();
    ReplicateIdsOccur(observations, run);
    forall o ensures AtLeastReciprocal(Ratio()(o), InverseRatio()(o)) { RatiosAreReciprocal(o); }
    LiftToRun(observations, run, Ratio(), InverseRatio(), AtLeastReciprocal, AnySize);
    ReciprocalCentres(ReplicateMedians(observations, run, Ratio()), ReplicateMedians(observations, run, InverseRatio()));
  }

  lemma RatioHasInverse(o: Observation)
    ensures Ratio()(o) > 0.0 && InverseRatio()(o) == Invert(Ratio()(o))
  {
    RatiosAreReciprocal(o);
    DominatesInverse(Ratio()(o), InverseRatio()(o));
  }

  lemma CentresOfInverseLists(a: seq<real>, b: seq<real>)
    requires a != [] && Image(Invert, a, b) && forall k :: 0 <= k < |a| ==> a[k] > 0.0
    ensures Reciprocal(Centre(a), Centre(b)) <==> MiddlesAgree(a)
  {
    CentreOfInverses(a, b);
  }

  /** The medians of a replicate are exactly reciprocal just when no two different ratios are averaged. */
  lemma ReplicateIsExactIff(observations: seq<Observation>, run: string, rep: string)
    requires InReplicate(observations, run, rep) != []
    ensures Reciprocal(ReplicateMedian(observations, run, rep, Ratio()), ReplicateMedian(observations, run, rep, InverseRatio())) <==>
              MiddlesAgree(Map(Ratio(), InReplicate(observations, run, rep)))
  {
    var members := InReplicate(observations, run, rep);
    forall k | 0 <= k < |members| { RatioHasInverse(members[k]); }
    CentresOfInverseLists(Map(Ratio(), members), Map(InverseRatio(), members));
  }

  /** Both runs have the same median, and the replicate medians of each are tight. */
  ghost predicate RunsAgreeTightly(observations: seq<Observation>)
    requires |RunIds(observations)| == 2
  {
    RunIdsOccur(observations);
    var ids := RunIds(observations);
    && RunMedian(observations, ids[0], Ratio()) == RunMedian(observations, ids[1], Ratio())
    && forall k :: 0 <= k < 2 ==> InRun(observations, ids[k]) != [] && TightRun(observations, ids[k])
  }

  ghost predicate TightRun(observations: seq<Observation>, run: string)
    requires InRun(observations, run) != []
  {
    ReplicateIdsOccur(observations, run);
    Tight(ReplicateMedians(observations, run, Ratio()), ReplicateMedians(observations, run, InverseRatio()))
  }

  lemma RunMediansAreAtLeastReciprocal(observations: seq<Observation>)
    requires observations != []
    ensures Pointwise(AtLeastReciprocal, RunMedians(observations, Ratio()), RunMedians(observations, InverseRatio()))
  {
    CentreKeepsAtLeastReciprocal();
    forall o ensures AtLeastReciprocal(Ratio()(o), InverseRatio()(o)) { RatiosAreReciprocal(o); }
    LiftThroughLevels(observations, Ratio(), InverseRatio(), AtLeastReciprocal, AnySize);
  }

  /** Over two runs the directions are exact reciprocals just when the runs agree tightly. */
  lemma ReciprocalIffRunsAgree(observations: seq<Observation>)
    requires |RunIds(observations)| == 2 && observations != []
    ensures Reciprocal(Hierarchical(observations, Ratio()), Hierarchical(Map(SwapSides, observations), Ratio())) <==>
              RunsAgreeTightly(observations)
  {
    var ids := RunIds(observations);
    RunIdsOccur(observations);
    RunMediansAreAtLeastReciprocal(observations);
    SwapHierarchical(observations, Ratio(), InverseRatio());
    ReciprocalOfTwo(RunMedians(observations, Ratio()), RunMedians(observations, InverseRatio()));
    forall k | 0 <= k < 2
      ensures Reciprocal(RunMedians(observations, Ratio())[k], RunMedians(observations, InverseRatio())[k]) <==>
                TightRun(observations, ids[k])
    {
      assert ids[k] in ids;
      RunIsExactIff(observations, ids[k]);
    }
  }

  /** With odd numbers of replicates and blocks, equal run medians are all it takes. */
  lemma OddWithinIffRunsAgree(observations: seq<Observation>)
    requires |RunIds(observations)| == 2 && observations != [] && ShapedWithin(observations, OddSize)
    ensures Reciprocal(Hierarchical(observations, Ratio()), Hierarchical(Map(SwapSides, observations), Ratio())) <==>
              RunMedians(observations, Ratio())[0] == RunMedians(observations, Ratio())[1]
  {
    var ids := RunIds(observations);
    RunIdsOccur(observations);
    OddCentreKeepsReciprocal();
    forall o ensures Reciprocal(Ratio()(o), InverseRatio()(o)) { RatiosAreReciprocal(o); }
    RunMediansAreAtLeastReciprocal(observations);
    SwapHierarchical(observations, Ratio(), InverseRatio());
    ReciprocalOfTwo(RunMedians(observations, Ratio()), RunMedians(observations, InverseRatio()));
    forall k | 0 <= k < 2
      ensures Reciprocal(RunMedians(observations, Ratio())[k], RunMedians(observations, InverseRatio())[k])
    {
      assert ids[k] in ids;
      LiftToRun(observations, ids[k], Ratio(), InverseRatio(), Reciprocal, OddSize);
    }
  }

  /** The two directions of a difference are opposite, whatever the sizes. */
  lemma DifferencesAreOpposite(observations: seq<Observation>)
    requires observations != []
    ensures Hierarchical(Map(SwapSides, observations), Difference()) == -Hierarchical(observations, Difference())
  {
    CentreKeepsOpposite();
    forall o ensures Opposite(Difference()(o), InverseDifference()(o)) { RatiosAreReciprocal(o); }
    LiftThroughLevels(observations, Difference(), InverseDifference(), Opposite, AnySize);
    SwapHierarchical(observations, Difference(), InverseDifference());
  }

  // The loops.

  /** The medians of the listed groups, in order and by name. */
  method ListedMedians(ids: seq<string>, groups: map<string, seq<real>>) returns (medians: seq<real>, byId: map<string, real>)
    requires Distinct(ids) && forall k :: 0 <= k < |ids| ==> ids[k] in groups && groups[ids[k]] != []
    ensures |medians| == |ids| && forall k :: 0 <= k < |ids| ==> medians[k] == Centre(groups[ids[k]])
    ensures forall id :: id in byId <==> id in ids
    ensures forall id :: id in byId ==> byId[id] == Centre(groups[id])
  {
    medians, byId := [], map[];
    for k := 0 to |ids|
      invariant |medians| == k && forall j :: 0 <= j < k ==> medians[j] == Centre(groups[ids[j]])
      invariant forall id :: id in byId <==> id in ids[..k]
      invariant forall id :: id in byId ==> id in groups && groups[id] != [] && byId[id] == Centre(groups[id])
    {
      var median := Centre(groups[ids[k]]);
      byId := byId[ids[k] := median];
      medians := medians + [median];
      assert ids[..k+1] == ids[..k] + [ids[k]];
    }
    assert ids[..|ids|] == ids;
  }

  ghost predicate ReplicateLevels(byReplicate: map<string, real>, observations: seq<Observation>, run: string, f: Observation -> real) {
    && (forall rep :: rep in byReplicate <==> InReplicate(observations, run, rep) != [])
    && (forall rep :: rep in byReplicate ==> byReplicate[rep] == ReplicateMedian(observations, run, rep, f))
  }

  lemma KeysAreReplicates(inner: map<string, seq<real>>, observations: seq<Observation>, run: string, f: Observation -> real,
                          ids: seq<string>)
    requires GroupedRun(inner, observations, run, f)
    requires SortedBy(ids, StrLe) && Distinct(ids) && forall id :: id in ids <==> id in inner
    ensures ids == ReplicateIds(observations, run)
  {
    ReplicateIdsOccur(observations, run);
    ListingIsUnique(ids, ReplicateIds(observations, run));
  }

  lemma MediansAreReplicateMedians(inner: map<string, seq<real>>, observations: seq<Observation>, run: string, f: Observation -> real,
                                   medians: seq<real>)
    requires GroupedRun(inner, observations, run, f)
    requires var ids := ReplicateIds(observations, run);
             |medians| == |ids| && forall k :: 0 <= k < |ids| ==> ids[k] in inner && inner[ids[k]] != [] && medians[k] == Centre(inner[ids[k]])
    ensures medians == ReplicateMedians(observations, run, f)
  {
  }

  /** The replicate medians of one run. */
  method ReplicateLevel(inner: map<string, seq<real>>, ghost observations: seq<Observation>, ghost run: string,
                        ghost f: Observation -> real) returns (medians: seq<real>, byReplicate: map<string, real>)
    requires GroupedRun(inner, observations, run, f)
    ensures medians == ReplicateMedians(observations, run, f)
    ensures ReplicateLevels(byReplicate, observations, run, f)
  {
    StrOrder();
    var ids := SortedSet(inner.Keys, StrLe);
    KeysAreReplicates(inner, observations, run, f, ids);
    medians, byReplicate := ListedMedians(ids, inner);
    MediansAreReplicateMedians(inner, observations, run, f, medians);
  }

  /** The medians of all levels. */
  ghost predicate Levels(byReplicate: map<string, map<string, real>>, byRun: map<string, real>,
                         observations: seq<Observation>, f: Observation -> real) {
    && (forall run :: run in byRun <==> InRun(observations, run) != [])
    && (forall run :: run in byRun ==> byRun[run] == RunMedian(observations, run, f))
    && (forall run :: run in byRun ==> run in byReplicate && ReplicateLevels(byReplicate[run], observations, run, f))
  }

  /** One round of the loop over the runs. */
  method RunLevel(inner: map<string, seq<real>>, ghost observations: seq<Observation>, ghost run: string,
                  ghost f: Observation -> real) returns (byReplicate: map<string, real>, median: real)
    requires GroupedRun(inner, observations, run, f) && InRun(observations, run) != []
    ensures median == RunMedian(observations, run, f) && ReplicateLevels(byReplicate, observations, run, f)
  {
    ReplicateIdsOccur(observations, run);
    var medians;
    medians, byReplicate := ReplicateLevel(inner, observations, run, f);
    median := Centre(medians);
  }

  /** What one round of the loop leaves behind. */
  ghost predicate RunIsDone(observations: seq<Observation>, f: Observation -> real, run: string,
                            byReplicate: map<string, real>, median: real) {
    InRun(observations, run) != [] && median == RunMedian(observations, run, f) && ReplicateLevels(byReplicate, observations, run, f)
  }

  ghost predicate RunIsReady(groups: Groups, observations: seq<Observation>, f: Observation -> real, run: string) {
    run in groups && InRun(observations, run) != [] && GroupedRun(groups[run], observations, run, f)
  }

  /** The loop over the runs. */
  method RunLoop(ids: seq<string>, groups: Groups, ghost observations: seq<Observation>, ghost f: Observation -> real)
      returns (byReplicate: map<string, map<string, real>>, byRun: map<string, real>, runValues: seq<real>)
    requires Distinct(ids) && forall k :: 0 <= k < |ids| ==> RunIsReady(groups, observations, f, ids[k])
    ensures |runValues| == |ids| && byRun.Keys <= groups.Keys
    ensures forall k :: 0 <= k < |ids| ==> ids[k] in byReplicate && ids[k] in byRun && runValues[k] == byRun[ids[k]]
    ensures forall k :: 0 <= k < |ids| ==> RunIsDone(observations, f, ids[k], byReplicate[ids[k]], byRun[ids[k]])
  {
    ghost var done := (run, m, median) => RunIsDone(observations, f, run, m, median);
    byReplicate, byRun, runValues := map[], map[], [];
    for k := 0 to |ids|
      invariant |runValues| == k && byRun.Keys <= groups.Keys
      invariant forall j :: 0 <= j < k ==> ids[j] in byReplicate && ids[j] in byRun && runValues[j] == byRun[ids[j]]
      invariant forall j :: 0 <= j < k ==> done(ids[j], byReplicate[ids[j]], byRun[ids[j]])
    {
      var run := ids[k];
      var replicates, median := RunLevel(groups[run], observations, run, f);
      assert done(run, replicates, median);
      byReplicate := byReplicate[run := replicates];
      byRun := byRun[run := median];
      runValues := runValues + [median];
    }
  }

  lemma ValuesAreDone(ids: seq<string>, observations: seq<Observation>, f: Observation -> real,
                      byReplicate: map<string, map<string, real>>, byRun: map<string, real>, runValues: seq<real>)
    requires ids == RunIds(observations) && |runValues| == |ids|
    requires forall k :: 0 <= k < |ids| ==> ids[k] in byReplicate && ids[k] in byRun && runValues[k] == byRun[ids[k]]
    requires forall k :: 0 <= k < |ids| ==> RunIsDone(observations, f, ids[k], byReplicate[ids[k]], byRun[ids[k]])
    ensures runValues == RunMedians(observations, f)
  {
    forall k | 0 <= k < |ids| ensures runValues[k] == RunMedians(observations, f)[k] {
      assert RunIsDone(observations, f, ids[k], byReplicate[ids[k]], byRun[ids[k]]);
    }
  }

  lemma LevelsAreDone(ids: seq<string>, observations: seq<Observation>, f: Observation -> real,
                      byReplicate: map<string, map<string, real>>, byRun: map<string, real>)
    requires ids == RunIds(observations) && forall run :: run in byRun ==> InRun(observations, run) != []
    requires forall k :: 0 <= k < |ids| ==> ids[k] in byReplicate && ids[k] in byRun
    requires forall k :: 0 <= k < |ids| ==> RunIsDone(observations, f, ids[k], byReplicate[ids[k]], byRun[ids[k]])
    ensures Levels(byReplicate, byRun, observations, f)
  {
    RunIdsOccur(observations);
    forall run ensures run in byRun <==> InRun(observations, run) != [] {
      if InRun(observations, run) != [] {
        var k :| 0 <= k < |ids| && ids[k] == run;
      }
    }
    forall run | run in byRun
      ensures run in byReplicate && RunIsDone(observations, f, run, byReplicate[run], byRun[run])
    {
      var k :| 0 <= k < |ids| && ids[k] == run;
    }
  }

  method MedianLevels(groups: Groups, ghost observations: seq<Observation>, ghost f: Observation -> real)
      returns (byReplicate: map<string, map<string, real>>, byRun: map<string, real>, runValues: seq<real>, final: real)
    requires observations != [] && Grouped(groups, observations, f)
    ensures final == Hierarchical(observations, f) && runValues == RunMedians(observations, f)
    ensures Levels(byReplicate, byRun, observations, f)
  {
    StrOrder();
    var ids := SortedSet(groups.Keys, StrLe);
    RunIdsOccur(observations);
    ListingIsUnique(ids, RunIds(observations));
    forall k | 0 <= k < |ids| ensures RunIsReady(groups, observations, f, ids[k]) {
      assert ids[k] in ids;
    }
    byReplicate, byRun, runValues := RunLoop(ids, groups, observations, f);
    ValuesAreDone(ids, observations, f, byReplicate, byRun, runValues);
    LevelsAreDone(ids, observations, f, byReplicate, byRun);
    final := Centre(runValues);
  }

  datatype Estimate = Estimate(medianRatio: real, medianDifference: real,
    replicateMedians: map<string, map<string, real>>, runLevelMedians: map<string, real>,
    replicateMedianDifferences: map<string, map<string, real>>, runLevelMedianDifferences: map<string, real>,
    runLevelRelativeDifference: real)

  function RelativeDifference(runValues: seq<real>): real {
    if |runValues| == 2 && runValues[0] != 0.0 then Abs(runValues[1] - runValues[0]) / runValues[0] else 0.0
  }

  ghost predicate EstimateOf(e: Estimate, observations: seq<Observation>)
    requires observations != []
  {
    && e.medianRatio == Hierarchical(observations, Ratio())
    && e.medianDifference == Hierarchical(observations, Difference())
    && Levels(e.replicateMedians, e.runLevelMedians, observations, Ratio())
    && Levels(e.replicateMedianDifferences, e.runLevelMedianDifferences, observations, Difference())
    && e.runLevelRelativeDifference == RelativeDifference(RunMedians(observations, Ratio()))
  }

  /** One block more. */
  method AddNext(groups: Groups, o: Observation, value: real, ghost before: seq<Observation>, ghost f: Observation -> real)
      returns (next: Groups)
    requires Grouped(groups, before, f) && value == f(o)
    ensures Grouped(next, before + [o], f)
  {
    AddKeepsGroups(groups, before, o, f);
    next := Add(groups, o, value);
  }

  lemma ObserveNext(profiles: set<string>, blocks: seq<CostBlock>, left: string, right: string, metric: string, k: nat)
    requires k < |blocks| && Readable(profiles, blocks[..k], left, right, metric)
    requires Observe(profiles, blocks[k], left, right, metric).Ok?
    ensures Readable(profiles, blocks[..k+1], left, right, metric)
    ensures Observations(profiles, blocks[..k+1], left, right, metric)
         == Observations(profiles, blocks[..k], left, right, metric) + [Observe(profiles, blocks[k], left, right, metric).value]
  {
    assert blocks[..k+1] == blocks[..k] + [blocks[k]];
    forall block | block in blocks[..k+1] ensures Observe(profiles, block, left, right, metric).Ok? {
      if block in blocks[..k] {
        var j :| 0 <= j < k && blocks[..k][j] == block;
        assert Observe(profiles, blocks[..k][j], left, right, metric).Ok?;
      }
    }
  }

  /** Reading and grouping the blocks; the first block that cannot be read stops it. */
  method GroupBlocks(profiles: set<string>, blocks: seq<CostBlock>, left: string, right: string, metric: string)
      returns (r: Result<(Groups, Groups), EstimateError>)
    ensures r.Ok? <==> Readable(profiles, blocks, left, right, metric)
    ensures r.Ok? ==> var observations := Observations(profiles, blocks, left, right, metric);
      Grouped(r.value.0, observations, Ratio()) && Grouped(r.value.1, observations, Difference())
    ensures r.Err? ==> exists k :: 0 <= k < |blocks| && Observe(profiles, blocks[k], left, right, metric) == Err(r.error)
                                   && Readable(profiles, blocks[..k], left, right, metric)
  {
    var ratios: Groups, differences: Groups := map[], map[];
    ghost var seen: seq<Observation> := [];
    for k := 0 to |blocks|
      invariant Readable(profiles, blocks[..k], left, right, metric)
      invariant seen == Observations(profiles, blocks[..k], left, right, metric)
      invariant Grouped(ratios, seen, Ratio()) && Grouped(differences, seen, Difference())
    {
      var observed := Observe(profiles, blocks[k], left, right, metric);
      if observed.Err? {
        return Err(observed.error);
      }
      var o := observed.value;
      ratios := AddNext(ratios, o, o.left / o.right, seen, Ratio());
      differences := AddNext(differences, o, o.left - o.right, seen, Difference());
      ObserveNext(profiles, blocks, left, right, metric, k);
      seen := seen + [o];
    }
    assert blocks[..|blocks|] == blocks;
    return Ok((ratios, differences));
  }

  datatype Cell = Cell(left: string, right: string, metric: string)

  /** There are blocks, both costs of the cell can be read from each, and they come from two runs. */
  ghost predicate Estimable(profiles: set<string>, blocks: seq<CostBlock>, c: Cell) {
    && blocks != [] && Readable(profiles, blocks, c.left, c.right, c.metric)
    && |RunIds(Observations(profiles, blocks, c.left, c.right, c.metric))| == 2
  }

  /** The estimate; the bootstrap interval beside it refuses anything but two runs. */
  method PairwiseHierarchicalEstimate(profiles: set<string>, blocks: seq<CostBlock>, left: string, right: string, metric: string)
      returns (r: Result<Estimate, EstimateError>)
    ensures r.Ok? <==> Estimable(profiles, blocks, Cell(left, right, metric))
    ensures r == Err(NoBlocks) <==> blocks == []
    ensures r == Err(NotTwoRuns) <==> blocks != [] && Readable(profiles, blocks, left, right, metric)
                                      && |RunIds(Observations(profiles, blocks, left, right, metric))| != 2
    ensures r.Ok? ==> EstimateOf(r.value, Observations(profiles, blocks, left, right, metric))
  {
    var grouped := GroupBlocks(profiles, blocks, left, right, metric);
    if grouped.Err? {
      return Err(grouped.error);
    }
    if blocks == [] {
      return Err(NoBlocks);
    }
    ghost var observations := Observations(profiles, blocks, left, right, metric);
    var ratioReplicates, ratioRuns, runValues, ratio := MedianLevels(grouped.value.0, observations, Ratio());
    var differenceReplicates, differenceRuns, _, difference := MedianLevels(grouped.value.1, observations, Difference());
    if |runValues| != 2 {
      return Err(NotTwoRuns);
    }
    return Ok(Estimate(ratio, difference, ratioReplicates, ratioRuns, differenceReplicates, differenceRuns,
                       RelativeDifference(runValues)));
  }

  // Both directions of a pair.

  lemma ReverseObservations(profiles: set<string>, blocks: seq<CostBlock>, left: string, right: string, metric: string)
    requires Readable(profiles, blocks, left, right, metric)
    ensures Readable(profiles, blocks, right, left, metric)
    ensures Observations(profiles, blocks, right, left, metric) == Map(SwapSides, Observations(profiles, blocks, left, right, metric))
  {
    forall k | 0 <= k < |blocks|
      ensures Observe(profiles, blocks[k], right, left, metric).Ok?
      ensures Observe(profiles, blocks[k], right, left, metric).value == SwapSides(Observe(profiles, blocks[k], left, right, metric).value)
    {
      assert Observe(profiles, blocks[k], left, right, metric).Ok?;
    }
    assert Observations(profiles, blocks, right, left, metric) == Map(SwapSides, Observations(profiles, blocks, left, right, metric));
  }

  /** The estimates of the two directions, computed independently from the same blocks. */
  lemma EstimatesOfBothDirections(profiles: set<string>, blocks: seq<CostBlock>, left: string, right: string, metric: string,
                                  forward: Estimate, backward: Estimate)
    requires Estimable(profiles, blocks, Cell(left, right, metric))
    requires EstimateOf(forward, Observations(profiles, blocks, left, right, metric))
    requires Readable(profiles, blocks, right, left, metric)
    requires EstimateOf(backward, Observations(profiles, blocks, right, left, metric))
    ensures AtLeastReciprocal(forward.medianRatio, backward.medianRatio)
    ensures Reciprocal(forward.medianRatio, backward.medianRatio) <==>
              RunsAgreeTightly(Observations(profiles, blocks, left, right, metric))
    ensures ShapedWithin(Observations(profiles, blocks, left, right, metric), OddSize) ==>
              var medians := RunMedians(Observations(profiles, blocks, left, right, metric), Ratio());
              (Reciprocal(forward.medianRatio, backward.medianRatio) <==> medians[0] == medians[1])
    ensures backward.medianDifference == -forward.medianDifference
  {
    var observations := Observations(profiles, blocks, left, right, metric);
    ReverseObservations(profiles, blocks, left, right, metric);
    DirectionsMultiplyToAtLeastOne(observations);
    DifferencesAreOpposite(observations);
    ReciprocalIffRunsAgree(observations);
    if ShapedWithin(observations, OddSize) { OddWithinIffRunsAgree(observations); }
  }

  // An input on which they are not reciprocal.

  function CostOf(cost: real): CostRecord { CostRecord(None, None, None, map["cpu" := cost]) }

  /** Two runs of one block each, in which the left profile costs two and four times the right one. */
  function TwoRunBlocks(): seq<CostBlock> {
    [CostBlock("R1", "A", 0, map["P0" := CostOf(2.0), "P1" := CostOf(1.0)]),
     CostBlock("R2", "A", 0, map["P0" := CostOf(4.0), "P1" := CostOf(1.0)])]
  }

  lemma OnlyOne(o: Observation, run: string, rep: string)
    ensures InRun([o], run) == if o.runId == run then [o] else []
    ensures InReplicate([o], run, rep) == if o.runId == run && o.replicateId == rep then [o] else []
  {
    assert [o][..0] == [];
    assert InRun([], run) == [] && InReplicate([], run, rep) == [];
  }

  lemma OneOfTwo(first: Observation, second: Observation)
    requires first.runId != second.runId
    ensures var os := [first, second];
            InRun(os, first.runId) == [first] && InReplicate(os, first.runId, first.replicateId) == [first] &&
            InRun(os, second.runId) == [second] && InReplicate(os, second.runId, second.replicateId) == [second]
  {
    assert [first, second][..1] == [first];
    OnlyOne(first, first.runId, first.replicateId);
    OnlyOne(first, second.runId, second.replicateId);
  }

  lemma RunOfOne(observations: seq<Observation>, o: Observation, f: Observation -> real)
    requires InRun(observations, o.runId) == [o] && InReplicate(observations, o.runId, o.replicateId) == [o]
    ensures RunMedian(observations, o.runId, f) == f(o)
  {
    ReplicateIdsOccur(observations, o.runId);
    var ids := ReplicateIds(observations, o.runId);
    assert Map(ReplicateOf(), [o]) == [o.replicateId];
    ListingIsUnique(ids, [o.replicateId]);
    CentreOfOne(Map(f, [o]));
    CentreOfOne(ReplicateMedians(observations, o.runId, f));
  }

  lemma CentreOfOne(a: seq<real>)
    requires |a| == 1
    ensures Centre(a) == a[0]
  {
    OrderedFacts(a);
    MembersOfPermutation(Ordered(a), a);
    assert Ordered(a)[0] in a;
  }

  /** Two runs of one observation each. */
  lemma TwoSingleRuns(first: Observation, second: Observation, f: Observation -> real)
    requires first.runId != second.runId && StrLe(first.runId, second.runId)
    ensures RunIds([first, second]) == [first.runId, second.runId]
    ensures Hierarchical([first, second], f) == (f(first) + f(second)) / 2.0
  {
    var os := [first, second];
    RunIdsOccur(os);
    OneOfTwo(first, second);
    assert Map(RunOf(), os) == [first.runId, second.runId];
    ListingIsUnique(RunIds(os), [first.runId, second.runId]);
    RunOfOne(os, first, f);
    RunOfOne(os, second, f);
    CentreOfTwo(RunMedians(os, f));
  }

  /** Ratios of two and four in two runs: the directions come to 3 and to 3/8. */
  method DirectionsThatDoNotInvert() returns (forward: Estimate, backward: Estimate)
    ensures Estimable({"P0", "P1"}, TwoRunBlocks(), Cell("P0", "P1", "cpu"))
    ensures EstimateOf(forward, Observations({"P0", "P1"}, TwoRunBlocks(), "P0", "P1", "cpu"))
    ensures forward.medianRatio == 3.0 && backward.medianRatio == 0.375
    ensures !Reciprocal(forward.medianRatio, backward.medianRatio)
  {
    ghost var blocks, profiles := TwoRunBlocks(), {"P0", "P1"};
    ghost var first, second := Observation("R1", "A", 2.0, 1.0), Observation("R2", "A", 4.0, 1.0);
    assert Observe(profiles, blocks[0], "P0", "P1", "cpu") == Ok(first);
    assert Observe(profiles, blocks[1], "P0", "P1", "cpu") == Ok(second);
    assert Observations(profiles, blocks, "P0", "P1", "cpu") == [first, second];
    ReverseObservations(profiles, blocks, "P0", "P1", "cpu");
    assert Map(SwapSides, [first, second]) == [SwapSides(first), SwapSides(second)];
    TwoSingleRuns(first, second, Ratio());
    TwoSingleRuns(SwapSides(first), SwapSides(second), Ratio());
    var there := PairwiseHierarchicalEstimate({"P0", "P1"}, TwoRunBlocks(), "P0", "P1", "cpu");
    var back := PairwiseHierarchicalEstimate({"P0", "P1"}, TwoRunBlocks(), "P1", "P0", "cpu");
    forward, backward := there.value, back.value;
  }

  predicate BothOne(x: real, y: real) { x == 1.0 && y == 1.0 }

  lemma CentreKeepsBothOne()
    ensures KeptByCentre(BothOne, AnySize)
  {
    forall a: seq<real>, b: seq<real> | a != [] && Pointwise(BothOne, a, b) ensures BothOne(Centre(a), Centre(b)) {
      assert forall k :: 0 <= k < |a| ==> BothOne(a[k], b[k]);
      CentreOfOnes(a);
      CentreOfOnes(b);
    }
  }

  lemma CentreOfOnes(values: seq<real>)
    requires values != [] && forall k :: 0 <= k < |values| ==> values[k] == 1.0
    ensures Centre(values) == 1.0
  {
    OrderedFacts(values);
    MembersOfPermutation(Ordered(values), values);
    forall k | 0 <= k < |values| ensures Ordered(values)[k] == 1.0 { assert Ordered(values)[k] in values; }
  }

  lemma SelfQuotient(x: real)
    requires x > 0.0
    ensures x / x == 1.0
  {
  }

  /** A profile costs once what it costs. */
  lemma SelfRatioIsOne(profiles: set<string>, blocks: seq<CostBlock>, profile: string, metric: string)
    requires blocks != [] && Readable(profiles, blocks, profile, profile, metric)
    ensures Hierarchical(Observations(profiles, blocks, profile, profile, metric), Ratio()) == 1.0
  {
    var observations := Observations(profiles, blocks, profile, profile, metric);
    forall o | o in observations ensures BothOne(Ratio()(o), Ratio()(o)) {
      var k :| 0 <= k < |observations| && observations[k] == o;
      assert Observe(profiles, blocks[k], profile, profile, metric).Ok?;
      assert o.left == o.right;
      SelfQuotient(o.left);
    }
    CentreKeepsBothOne();
    LiftThroughLevels(observations, Ratio(), Ratio(), BothOne, AnySize);
  }

  // The matrix over all pairs of profiles and the display values.

  function Canonical(left: string, right: string): (string, string) {
    if StrLe(left, right) then (left, right) else (right, left)
  }

  /** The value displayed for a cell, from the estimate of its canonical direction. */
  method DisplayValue(matrix: map<Cell, Estimate>, cell: Cell) returns (display: real)
    requires cell in matrix && Reverse(cell) in matrix && matrix[Reverse(cell)].medianRatio > 0.0
    ensures Displayed(matrix, cell, display)
  {
    if cell.left == cell.right {
      return 1.0;
    }
    var (canonicalLeft, canonicalRight) := Canonical(cell.left, cell.right);
    var canonical := matrix[Cell(canonicalLeft, canonicalRight, cell.metric)].medianRatio;
    if cell.left == canonicalLeft {
      display := canonical;
    } else {
      display := 1.0 / canonical;
    }
  }

  function Reverse(cell: Cell): Cell { Cell(cell.right, cell.left, cell.metric) }

  ghost predicate Displayed(matrix: map<Cell, Estimate>, cell: Cell, display: real)
    requires cell in matrix && Reverse(cell) in matrix
  {
    if cell.left == cell.right then display == 1.0
    else if StrLe(cell.left, cell.right) then display == matrix[cell].medianRatio
    else Reciprocal(matrix[Reverse(cell)].medianRatio, display)
  }

  /** All cells of a grid are in the table. */
  ghost predicate CoversGrid(cells: set<Cell>, lefts: seq<string>, rights: seq<string>, metrics: seq<string>) {
    forall l, r, m :: l in lefts && r in rights && m in metrics ==> Cell(l, r, m) in cells
  }

  lemma CoversMore(cells: set<Cell>, lefts: seq<string>, rights: seq<string>, metrics: seq<string>)
    ensures forall i :: 0 <= i < |lefts| && CoversGrid(cells, lefts[..i], rights, metrics) && CoversGrid(cells, [lefts[i]], rights, metrics) ==>
              CoversGrid(cells, lefts[..i+1], rights, metrics)
    ensures forall j :: 0 <= j < |rights| && CoversGrid(cells, lefts, rights[..j], metrics) && CoversGrid(cells, lefts, [rights[j]], metrics) ==>
              CoversGrid(cells, lefts, rights[..j+1], metrics)
    ensures forall k :: 0 <= k < |metrics| && CoversGrid(cells, lefts, rights, metrics[..k]) && CoversGrid(cells, lefts, rights, [metrics[k]]) ==>
              CoversGrid(cells, lefts, rights, metrics[..k+1])
  {
    assert forall i :: 0 <= i < |lefts| ==> lefts[..i+1] == lefts[..i] + [lefts[i]];
    assert forall j :: 0 <= j < |rights| ==> rights[..j+1] == rights[..j] + [rights[j]];
    assert forall k :: 0 <= k < |metrics| ==> metrics[..k+1] == metrics[..k] + [metrics[k]];
  }

  ghost predicate AllEstimable(profiles: set<string>, blocks: seq<CostBlock>, names: seq<string>, metrics: seq<string>) {
    forall l, r, m :: l in names && r in names && m in metrics ==> Estimable(profiles, blocks, Cell(l, r, m))
  }

  ghost predicate CellIsEstimated(profiles: set<string>, blocks: seq<CostBlock>, c: Cell, e: Estimate) {
    Estimable(profiles, blocks, c) && EstimateOf(e, Observations(profiles, blocks, c.left, c.right, c.metric))
  }

  method EstimateCell(profiles: set<string>, blocks: seq<CostBlock>, cell: Cell) returns (r: Result<Estimate, EstimateError>)
    ensures r.Ok? <==> Estimable(profiles, blocks, cell)
    ensures r.Ok? ==> CellIsEstimated(profiles, blocks, cell, r.value)
  {
    r := PairwiseHierarchicalEstimate(profiles, blocks, cell.left, cell.right, cell.metric);
  }

  /** The estimates of all cells, each aggregated on its own. */
  method EstimateMatrix(profiles: set<string>, names: seq<string>, metrics: seq<string>, blocks: seq<CostBlock>)
      returns (r: Result<map<Cell, Estimate>, EstimateError>)
    ensures r.Ok? <==> AllEstimable(profiles, blocks, names, metrics)
    ensures r.Ok? ==> CoversGrid(r.value.Keys, names, names, metrics)
    ensures r.Ok? ==> forall c :: c in r.value ==> CellIsEstimated(profiles, blocks, c, r.value[c])
  {
    ghost var good := (c, e) => CellIsEstimated(profiles, blocks, c, e);
    var matrix: map<Cell, Estimate> := map[];
    for i := 0 to |names|
      invariant CoversGrid(matrix.Keys, names[..i], names, metrics)
      invariant forall c :: c in matrix ==> good(c, matrix[c])
    {
      for j := 0 to |names|
        invariant CoversGrid(matrix.Keys, names[..i], names, metrics) && CoversGrid(matrix.Keys, [names[i]], names[..j], metrics)
        invariant forall c :: c in matrix ==> good(c, matrix[c])
      {
        for k := 0 to |metrics|
          invariant CoversGrid(matrix.Keys, names[..i], names, metrics) && CoversGrid(matrix.Keys, [names[i]], names[..j], metrics)
          invariant CoversGrid(matrix.Keys, [names[i]], [names[j]], metrics[..k])
          invariant forall c :: c in matrix ==> good(c, matrix[c])
        {
          var cell := Cell(names[i], names[j], metrics[k]);
          var estimate := EstimateCell(profiles, blocks, cell);
          if estimate.Err? {
            return Err(estimate.error);
          }
          assert good(cell, estimate.value);
          matrix := matrix[cell := estimate.value];
          CoversMore(matrix.Keys, [names[i]], [names[j]], metrics);
        }
        assert metrics[..|metrics|] == metrics;
        CoversMore(matrix.Keys, [names[i]], names, metrics);
      }
      assert names[..|names|] == names;
      CoversMore(matrix.Keys, names, names, metrics);
    }
    assert names[..|names|] == names;
    MatrixIsEstimable(profiles, names, metrics, blocks, matrix);
    return Ok(matrix);
  }

  lemma MatrixIsEstimable(profiles: set<string>, names: seq<string>, metrics: seq<string>, blocks: seq<CostBlock>, matrix: map<Cell, Estimate>)
    requires CoversGrid(matrix.Keys, names, names, metrics) && forall c :: c in matrix ==> CellIsEstimated(profiles, blocks, c, matrix[c])
    ensures AllEstimable(profiles, blocks, names, metrics)
  {
    forall l, r, m | l in names && r in names && m in metrics ensures Estimable(profiles, blocks, Cell(l, r, m)) {
      assert CellIsEstimated(profiles, blocks, Cell(l, r, m), matrix[Cell(l, r, m)]);
    }
  }

  method AddSymmetricDisplayEstimates(names: seq<string>, metrics: seq<string>, matrix: map<Cell, Estimate>)
      returns (display: map<Cell, real>)
    requires CoversGrid(matrix.Keys, names, names, metrics) && forall c :: c in matrix ==> matrix[c].medianRatio > 0.0
    ensures CoversGrid(display.Keys, names, names, metrics)
    ensures forall c :: c in display ==> c in matrix && Reverse(c) in matrix && Displayed(matrix, c, display[c])
  {
    display := map[];
    for i := 0 to |names|
      invariant CoversGrid(display.Keys, names[..i], names, metrics)
      invariant forall c :: c in display ==> c in matrix && Reverse(c) in matrix && Displayed(matrix, c, display[c])
    {
      for j := 0 to |names|
        invariant CoversGrid(display.Keys, names[..i], names, metrics) && CoversGrid(display.Keys, [names[i]], names[..j], metrics)
        invariant forall c :: c in display ==> c in matrix && Reverse(c) in matrix && Displayed(matrix, c, display[c])
      {
        for k := 0 to |metrics|
          invariant CoversGrid(display.Keys, names[..i], names, metrics) && CoversGrid(display.Keys, [names[i]], names[..j], metrics)
          invariant CoversGrid(display.Keys, [names[i]], [names[j]], metrics[..k])
          invariant forall c :: c in display ==> c in matrix && Reverse(c) in matrix && Displayed(matrix, c, display[c])
        {
          var cell := Cell(names[i], names[j], metrics[k]);
          var value := DisplayValue(matrix, cell);
          display := display[cell := value];
          CoversMore(display.Keys, [names[i]], [names[j]], metrics);
        }
        assert metrics[..|metrics|] == metrics;
        CoversMore(display.Keys, [names[i]], names, metrics);
      }
      assert names[..|names|] == names;
      CoversMore(display.Keys, names, names, metrics);
    }
    assert names[..|names|] == names;
  }

  lemma EstimateIsPositive(profiles: set<string>, blocks: seq<CostBlock>, c: Cell, e: Estimate)
    requires CellIsEstimated(profiles, blocks, c, e)
    ensures e.medianRatio > 0.0 && (c.left == c.right ==> e.medianRatio == 1.0)
  {
    DirectionsMultiplyToAtLeastOne(Observations(profiles, blocks, c.left, c.right, c.metric));
    if c.left == c.right { SelfRatioIsOne(profiles, blocks, c.left, c.metric); }
  }

  lemma ReciprocalIsLeast(x: real, y: real, display: real)
    requires AtLeastReciprocal(x, y) && Reciprocal(x, display)
    ensures display <= y
  {
    Scale(x, display, y);
  }

  /** The displayed values of the two directions are exact reciprocals, and none exceeds
      the estimate that was aggregated for its own direction. */
  lemma DisplayFacts(profiles: set<string>, blocks: seq<CostBlock>, matrix: map<Cell, Estimate>, c: Cell, here: real, there: real)
    requires c in matrix && Reverse(c) in matrix
    requires CellIsEstimated(profiles, blocks, c, matrix[c]) && CellIsEstimated(profiles, blocks, Reverse(c), matrix[Reverse(c)])
    requires Displayed(matrix, c, here) && Displayed(matrix, Reverse(c), there)
    ensures Reciprocal(here, there) && here <= matrix[c].medianRatio
    ensures StrLe(c.left, c.right) ==> here == matrix[c].medianRatio
  {
    StrOrder();
    EstimateIsPositive(profiles, blocks, c, matrix[c]);
    EstimatesOfBothDirections(profiles, blocks, c.right, c.left, c.metric, matrix[Reverse(c)], matrix[c]);
    if c.left != c.right && !StrLe(c.left, c.right) {
      ReciprocalIsLeast(matrix[Reverse(c)].medianRatio, matrix[c].medianRatio, here);
    }
  }

  ghost predicate DisplayIsConsistent(matrix: map<Cell, Estimate>, display: map<Cell, real>, c: Cell) {
    && c in matrix && c in display && Reverse(c) in display
    && Reciprocal(display[c], display[Reverse(c)]) && display[c] <= matrix[c].medianRatio
    && (StrLe(c.left, c.right) ==> display[c] == matrix[c].medianRatio)
  }

  method PairwiseTlsMatrix(profiles: set<string>, metrics: seq<string>, blocks: seq<CostBlock>)
      returns (r: Result<(map<Cell, Estimate>, map<Cell, real>), EstimateError>)
    ensures r.Ok? <==> forall left, right, metric :: left in profiles && right in profiles && metric in metrics ==>
              Estimable(profiles, blocks, Cell(left, right, metric))
    ensures r.Ok? ==> forall c :: c in r.value.0 ==> CellIsEstimated(profiles, blocks, c, r.value.0[c])
    ensures r.Ok? ==> forall left, right, metric :: left in profiles && right in profiles && metric in metrics ==>
              DisplayIsConsistent(r.value.0, r.value.1, Cell(left, right, metric))
  {
    StrOrder();
    var names := SortedSet(profiles, StrLe);
    var estimated := EstimateMatrix(profiles, names, metrics, blocks);
    if estimated.Err? {
      return Err(estimated.error);
    }
    var matrix := estimated.value;
    forall c | c in matrix ensures matrix[c].medianRatio > 0.0 {
      EstimateIsPositive(profiles, blocks, c, matrix[c]);
    }
    var display := AddSymmetricDisplayEstimates(names, metrics, matrix);
    forall left, right, metric | left in profiles && right in profiles && metric in metrics
      ensures DisplayIsConsistent(matrix, display, Cell(left, right, metric))
    {
      var c := Cell(left, right, metric);
      DisplayFacts(profiles, blocks, matrix, c, display[c], display[Reverse(c)]);
    }
    return Ok((matrix, display));
  }
}
