/** The execution schedule of a campaign (campaigns/stage8.py). */
module Schedule {
  import opened Sorting
  import opened Counting

  // An observation identifier is the tuple of the fields its text is composed from.

  datatype Config = Config(methods: seq<string>, feasible: seq<string>, infeasible: seq<string>, attacks: seq<string>,
    concurrency: seq<string>, levels: seq<int>, components: seq<string>,
    feasibleBlocks: nat, repetitionsPerBlock: nat, infeasiblePerScenario: nat, trialsPerAttack: nat,
    concurrencyPerScenarioLevel: nat, componentProcesses: nat)

  datatype ObservationId =
    | Feasible(scenario: string, method_: string, block: nat, repetition: nat)
    | Infeasible(scenario: string, repetition: nat)
    | Adversarial(attack: string, trial: nat)
    | Concurrency(scenario: string, level: int, repetition: nat)
    | Component(component: string, process: nat)

  datatype Kind = FeasibleKind | InfeasibleKind | AdversarialKind | ConcurrencyKind | ComponentKind

  function KindOf(id: ObservationId): Kind {
    match id
    case Feasible(_, _, _, _) => FeasibleKind
    case Infeasible(_, _) => InfeasibleKind
    case Adversarial(_, _) => AdversarialKind
    case Concurrency(_, _, _) => ConcurrencyKind
    case Component(_, _) => ComponentKind
  }

  /** One entry: its position in the whole schedule and its identifier. */
  datatype Scheduled = Scheduled(order: nat, id: ObservationId)

  function IdOf(): Scheduled -> ObservationId { (s: Scheduled) => s.id }

  function Ids(observations: seq<Scheduled>): seq<ObservationId> { Map(IdOf(), observations) }

  ghost predicate OrderedFrom(observations: seq<Scheduled>, start: nat) {
    forall k :: 0 <= k < |observations| ==> observations[k].order == start + k
  }

  /** How often an identifier is scheduled. */
  ghost function Occurrences(observations: seq<Scheduled>, id: ObservationId): nat {
    multiset(Ids(observations))[id]
  }

  lemma OccurrencesConcat(a: seq<Scheduled>, b: seq<Scheduled>)
    ensures forall id :: Occurrences(a + b, id) == Occurrences(a, id) + Occurrences(b, id)
  {
    assert Ids(a + b) == Ids(a) + Ids(b);
  }

  function Often<T(==)>(names: seq<T>, name: T): nat { multiset(names)[name] }

  lemma OftenNext<T>(names: seq<T>, k: nat, name: T)
    requires k < |names|
    ensures Often(names[..k+1], name) == Often(names[..k], name) + if names[k] == name then 1 else 0
  {
    assert names[..k+1] == names[..k] + [names[k]];
  }

  // Shuffling the methods.

  /** A Fisher-Yates pass with arbitrary draws. */
  method Shuffle(names: seq<string>) returns (shuffled: seq<string>)
    ensures multiset(shuffled) == multiset(names) && |shuffled| == |names|
  {
    shuffled := names;
    var i := |names|;
    while i > 1
      invariant multiset(shuffled) == multiset(names) && |shuffled| == |names| && i <= |names|
    {
      i := i - 1;
      var j: nat :| j <= i;
      shuffled := shuffled[i := shuffled[j]][j := shuffled[i]];
    }
  }

  // The feasible part. Its loops are nested: blocks, repetitions, scenarios, methods.

  /** The scheduled occurrences of an identifier in the scenarios `scenarios` of one repetition. */
  ghost function FeasibleTimes(scenarios: seq<string>, methods: seq<string>, block: nat, repetition: nat, id: ObservationId): nat {
    if id.Feasible? && id.block == block && id.repetition == repetition
    then Often(scenarios, id.scenario) * Often(methods, id.method_) else 0
  }

  method ScheduleMethods(c: Config, scenario: string, block: nat, repetition: nat, start: nat) returns (added: seq<Scheduled>)
    ensures OrderedFrom(added, start) && |added| == |c.methods|
    ensures forall id :: Occurrences(added, id) == FeasibleTimes([scenario], c.methods, block, repetition, id)
  {
    var methodOrder := Shuffle(c.methods);
    added := [];
    for k := 0 to |methodOrder|
      invariant |added| == k && OrderedFrom(added, start)
      invariant forall id :: Occurrences(added, id) == FeasibleTimes([scenario], methodOrder[..k], block, repetition, id)
    {
      var next := Scheduled(start + k, Feasible(scenario, methodOrder[k], block, repetition));
      OccurrencesConcat(added, [next]);
      assert Ids([next]) == [next.id];
      forall id { MethodTimesNext(scenario, methodOrder, k, block, repetition, id); }
      added := added + [next];
    }
    assert methodOrder[..|methodOrder|] == methodOrder;
  }

  lemma MethodTimesNext(scenario: string, methods: seq<string>, k: nat, block: nat, repetition: nat, id: ObservationId)
    requires k < |methods|
    ensures FeasibleTimes([scenario], methods[..k+1], block, repetition, id)
         == FeasibleTimes([scenario], methods[..k], block, repetition, id)
            + if id == Feasible(scenario, methods[k], block, repetition) then 1 else 0
  {
    if id.Feasible? { OftenNext(methods, k, id.method_); }
  }

  method ScheduleRepetition(c: Config, block: nat, repetition: nat, start: nat) returns (added: seq<Scheduled>)
    ensures OrderedFrom(added, start) && |added| == |c.feasible| * |c.methods|
    ensures forall id :: Occurrences(added, id) == FeasibleTimes(c.feasible, c.methods, block, repetition, id)
  {
    added := [];
    for k := 0 to |c.feasible|
      invariant |added| == k * |c.methods| && OrderedFrom(added, start)
      invariant forall id :: Occurrences(added, id) == FeasibleTimes(c.feasible[..k], c.methods, block, repetition, id)
    {
      var scenario := c.feasible[k];
      var next := ScheduleMethods(c, scenario, block, repetition, start + |added|);
      OccurrencesConcat(added, next);
      forall id { FeasibleTimesNext(c, k, block, repetition, id); }
      assert (k + 1) * |c.methods| == k * |c.methods| + |c.methods|;
      added := added + next;
    }
    assert c.feasible[..|c.feasible|] == c.feasible;
  }

  lemma FeasibleTimesNext(c: Config, k: nat, block: nat, repetition: nat, id: ObservationId)
    requires k < |c.feasible|
    ensures FeasibleTimes(c.feasible[..k+1], c.methods, block, repetition, id)
         == FeasibleTimes(c.feasible[..k], c.methods, block, repetition, id) + FeasibleTimes([c.feasible[k]], c.methods, block, repetition, id)
  {
    if id.Feasible? {
      OftenNext(c.feasible, k, id.scenario);
      var n := Often(c.methods, id.method_);
      if id.scenario == c.feasible[k] {
        assert (Often(c.feasible[..k], id.scenario) + 1) * n == Often(c.feasible[..k], id.scenario) * n + n;
      }
    }
  }

  /** The scheduled occurrences of an identifier in the repetitions after `low` up to `high` of one block. */
  ghost function BlockTimes(c: Config, block: nat, low: nat, high: nat, id: ObservationId): nat {
    if id.Feasible? && id.block == block && low < id.repetition <= high
    then Often(c.feasible, id.scenario) * Often(c.methods, id.method_) else 0
  }

  /** The entries of one scenario and method in one block. */
  function InCell(scenario: string, method_: string, block: nat): Scheduled -> bool {
    (s: Scheduled) => s.id.Feasible? && s.id.scenario == scenario && s.id.method_ == method_ && s.id.block == block
  }

  /** How many entries each combination of a scenario and a method gets in one repetition. */
  ghost function PerRepetition(c: Config, scenario: string, method_: string): nat {
    Often(c.feasible, scenario) * Often(c.methods, method_)
  }

  ghost predicate OfKind(observations: seq<Scheduled>, kind: Kind) {
    forall k :: 0 <= k < |observations| ==> KindOf(observations[k].id) == kind
  }

  lemma ScheduledIsCounted(observations: seq<Scheduled>, k: nat)
    requires k < |observations|
    ensures Occurrences(observations, observations[k].id) > 0
  {
    assert Ids(observations)[k] == observations[k].id;
    assert observations[k].id in multiset(Ids(observations));
  }

  lemma {:induction false} CellOfRepetition(added: seq<Scheduled>, block: nat, repetition: nat, scenario: string, method_: string, b: nat)
    requires forall k :: 0 <= k < |added| ==> added[k].id.Feasible? && added[k].id.block == block && added[k].id.repetition == repetition
    ensures Count(added, InCell(scenario, method_, b))
         == if b == block then Occurrences(added, Feasible(scenario, method_, block, repetition)) else 0
  {
    if added != [] {
      CellOfRepetition(added[1..], block, repetition, scenario, method_, b);
      assert added == [added[0]] + added[1..];
      OccurrencesConcat([added[0]], added[1..]);
      assert Ids([added[0]]) == [added[0].id];
    }
  }

  lemma RepetitionFacts(c: Config, added: seq<Scheduled>, block: nat, repetition: nat)
    requires forall id :: Occurrences(added, id) == FeasibleTimes(c.feasible, c.methods, block, repetition, id)
    ensures OfKind(added, FeasibleKind)
    ensures forall s, m, b: nat :: Count(added, InCell(s, m, b)) == if b == block then PerRepetition(c, s, m) else 0
  {
    forall k | 0 <= k < |added|
      ensures added[k].id.Feasible? && added[k].id.block == block && added[k].id.repetition == repetition
    {
      ScheduledIsCounted(added, k);
    }
    forall s, m, b: nat ensures Count(added, InCell(s, m, b)) == if b == block then PerRepetition(c, s, m) else 0 {
      CellOfRepetition(added, block, repetition, s, m, b);
    }
  }

  method ScheduleBlock(c: Config, block: nat, start: nat) returns (added: seq<Scheduled>)
    requires block > 0
    ensures OrderedFrom(added, start) && OfKind(added, FeasibleKind)
    ensures |added| == c.repetitionsPerBlock * (|c.feasible| * |c.methods|)
    ensures forall id :: Occurrences(added, id) == BlockTimes(c, block, (block - 1) * c.repetitionsPerBlock, block * c.repetitionsPerBlock, id)
    ensures forall s, m, b: nat :: Count(added, InCell(s, m, b)) == if b == block then c.repetitionsPerBlock * PerRepetition(c, s, m) else 0
  {
    var base := (block - 1) * c.repetitionsPerBlock;
    ghost var size := |c.feasible| * |c.methods|;
    added := [];
    for rep := 0 to c.repetitionsPerBlock
      invariant |added| == rep * size && OrderedFrom(added, start) && OfKind(added, FeasibleKind)
      invariant forall id :: Occurrences(added, id) == BlockTimes(c, block, base, base + rep, id)
      invariant forall s, m, b: nat :: Count(added, InCell(s, m, b)) == if b == block then rep * PerRepetition(c, s, m) else 0
    {
      var next := ScheduleRepetition(c, block, base + rep + 1, start + |added|);
      RepetitionFacts(c, next, block, base + rep + 1);
      OccurrencesConcat(added, next);
      forall s, m, b: nat { CountConcat(added, next, InCell(s, m, b)); }
      forall s, m { OneMore(rep, PerRepetition(c, s, m)); }
      OneMore(rep, size);
      added := added + next;
    }
    OneMore(block - 1, c.repetitionsPerBlock);
  }

  lemma OneMore(n: nat, x: nat)
    ensures (n + 1) * x == n * x + x
  {
  }

  ghost function FeasiblePartTimes(c: Config, blocks: nat, id: ObservationId): nat {
    if id.Feasible? && 1 <= id.block <= blocks then
      BlockTimes(c, id.block, (id.block - 1) * c.repetitionsPerBlock, id.block * c.repetitionsPerBlock, id)
    else 0
  }

  method ScheduleFeasible(c: Config, start: nat) returns (added: seq<Scheduled>)
    ensures OrderedFrom(added, start) && OfKind(added, FeasibleKind)
    ensures |added| == c.feasibleBlocks * (c.repetitionsPerBlock * (|c.feasible| * |c.methods|))
    ensures forall id :: Occurrences(added, id) == FeasiblePartTimes(c, c.feasibleBlocks, id)
    ensures forall s, m, b: nat :: Count(added, InCell(s, m, b)) ==
                                if 1 <= b <= c.feasibleBlocks then c.repetitionsPerBlock * PerRepetition(c, s, m) else 0
  {
    ghost var size := c.repetitionsPerBlock * (|c.feasible| * |c.methods|);
    added := [];
    for block := 0 to c.feasibleBlocks
      invariant |added| == block * size && OrderedFrom(added, start) && OfKind(added, FeasibleKind)
      invariant forall id :: Occurrences(added, id) == FeasiblePartTimes(c, block, id)
      invariant forall s, m, b: nat :: Count(added, InCell(s, m, b)) ==
                                    if 1 <= b <= block then c.repetitionsPerBlock * PerRepetition(c, s, m) else 0
    {
      var next := ScheduleBlock(c, block + 1, start + |added|);
      OccurrencesConcat(added, next);
      forall s, m, b: nat { CountConcat(added, next, InCell(s, m, b)); }
      OneMore(block, size);
      added := added + next;
    }
  }

  // The other parts: rounds over a list of names.

  ghost predicate MakesDistinctIds<T(!new)>(make: (T, nat) -> ObservationId, kind: Kind) {
    && (forall x, i: nat :: KindOf(make(x, i)) == kind)
    && (forall x, i: nat, y, j: nat :: make(x, i) == make(y, j) ==> x == y && i == j)
  }

  ghost predicate IsRounds<T(!new)>(added: seq<Scheduled>, names: seq<T>, rounds: nat, make: (T, nat) -> ObservationId, kind: Kind) {
    && OfKind(added, kind) && |added| == rounds * |names|
    && (forall x, i: nat :: Occurrences(added, make(x, i)) == if 1 <= i <= rounds then Often(names, x) else 0)
  }

  method ScheduleRound<T(!new,==)>(names: seq<T>, round: nat, make: (T, nat) -> ObservationId, ghost kind: Kind, start: nat)
      returns (added: seq<Scheduled>)
    requires MakesDistinctIds(make, kind)
    ensures OrderedFrom(added, start) && |added| == |names| && OfKind(added, kind)
    ensures forall x, i: nat :: Occurrences(added, make(x, i)) == if i == round then Often(names, x) else 0
  {
    added := [];
    for k := 0 to |names|
      invariant |added| == k && OrderedFrom(added, start) && OfKind(added, kind)
      invariant forall x, i: nat :: Occurrences(added, make(x, i)) == if i == round then Often(names[..k], x) else 0
    {
      var next := Scheduled(start + k, make(names[k], round));
      OccurrencesConcat(added, [next]);
      assert Ids([next]) == [next.id];
      forall x { OftenNext(names, k, x); }
      added := added + [next];
    }
    assert names[..|names|] == names;
  }

  method ScheduleRounds<T(!new,==)>(names: seq<T>, rounds: nat, make: (T, nat) -> ObservationId, ghost kind: Kind, start: nat)
      returns (added: seq<Scheduled>)
    requires MakesDistinctIds(make, kind)
    ensures OrderedFrom(added, start) && IsRounds(added, names, rounds, make, kind)
  {
    added := [];
    for round := 0 to rounds
      invariant OrderedFrom(added, start) && IsRounds(added, names, round, make, kind)
    {
      var next := ScheduleRound(names, round + 1, make, kind, start + |added|);
      OccurrencesConcat(added, next);
      OneMore(round, |names|);
      added := added + next;
    }
  }

  /** All scenarios at all concurrency levels, in the order of the nested loops. */
  method ScenarioLevels(scenarios: seq<string>, levels: seq<int>) returns (pairs: seq<(string, int)>)
    ensures |pairs| == |scenarios| * |levels|
    ensures forall s, l :: Often(pairs, (s, l)) == Often(scenarios, s) * Often(levels, l)
  {
    pairs := [];
    for i := 0 to |scenarios|
      invariant |pairs| == i * |levels|
      invariant forall s, l :: Often(pairs, (s, l)) == Often(scenarios[..i], s) * Often(levels, l)
    {
      var row := LevelsOf(scenarios[i], levels);
      forall s, l ensures Often(pairs + row, (s, l)) == Often(scenarios[..i+1], s) * Often(levels, l) {
        OftenNext(scenarios, i, s);
        OneMore(Often(scenarios[..i], s), Often(levels, l));
      }
      OneMore(i, |levels|);
      pairs := pairs + row;
    }
    assert scenarios[..|scenarios|] == scenarios;
  }

  method LevelsOf(scenario: string, levels: seq<int>) returns (row: seq<(string, int)>)
    ensures |row| == |levels|
    ensures forall s, l :: Often(row, (s, l)) == if s == scenario then Often(levels, l) else 0
  {
    row := [];
    for j := 0 to |levels|
      invariant |row| == j && forall s, l :: Often(row, (s, l)) == if s == scenario then Often(levels[..j], l) else 0
    {
      forall l { OftenNext(levels, j, l); }
      row := row + [(scenario, levels[j])];
    }
    assert levels[..|levels|] == levels;
  }

  // The whole schedule.

  function MakeInfeasible(): (string, nat) -> ObservationId { (s: string, r: nat) => Infeasible(s, r) }

  function MakeAdversarial(): (string, nat) -> ObservationId { (a: string, t: nat) => Adversarial(a, t) }

  function MakeConcurrency(): ((string, int), nat) -> ObservationId { (p: (string, int), r: nat) => Concurrency(p.0, p.1, r) }

  function MakeComponent(): (string, nat) -> ObservationId { (c: string, p: nat) => Component(c, p) }

  /** How often the design schedules an identifier, whatever the shuffles. */
  ghost function Expected(c: Config, id: ObservationId): nat {
    match id
    case Feasible(_, _, _, _) => FeasiblePartTimes(c, c.feasibleBlocks, id)
    case Infeasible(s, r) => if 1 <= r <= c.infeasiblePerScenario then Often(c.infeasible, s) else 0
    case Adversarial(a, t) => if 1 <= t <= c.trialsPerAttack then Often(c.attacks, a) else 0
    case Concurrency(s, l, r) => if 1 <= r <= c.concurrencyPerScenarioLevel then Often(c.concurrency, s) * Often(c.levels, l) else 0
    case Component(n, p) => if 1 <= p <= c.componentProcesses then Often(c.components, n) else 0
  }

  /** How many observations of a kind the design has. */
  function Size(c: Config, kind: Kind): nat {
    match kind
    case FeasibleKind => c.feasibleBlocks * (c.repetitionsPerBlock * (|c.feasible| * |c.methods|))
    case InfeasibleKind => c.infeasiblePerScenario * |c.infeasible|
    case AdversarialKind => c.trialsPerAttack * |c.attacks|
    case ConcurrencyKind => c.concurrencyPerScenarioLevel * (|c.concurrency| * |c.levels|)
    case ComponentKind => c.componentProcesses * |c.components|
  }

  function HasKind(kind: Kind): Scheduled -> bool { (s: Scheduled) => KindOf(s.id) == kind }

  lemma {:induction false} PartOfKind(part: seq<Scheduled>, kind: Kind)
    requires OfKind(part, kind)
    ensures forall id :: KindOf(id) != kind ==> Occurrences(part, id) == 0
    ensures forall other :: Count(part, HasKind(other)) == if other == kind then |part| else 0
    ensures kind != FeasibleKind ==> forall s, m, b: nat :: Count(part, InCell(s, m, b)) == 0
  {
    if part != [] {
      PartOfKind(part[1..], kind);
      assert part == [part[0]] + part[1..];
      OccurrencesConcat([part[0]], part[1..]);
      assert Ids([part[0]]) == [part[0].id];
    }
  }

  /** A part holds all of one kind and nothing else. */
  ghost predicate IsPart(c: Config, part: seq<Scheduled>, kind: Kind, start: nat) {
    && OrderedFrom(part, start) && OfKind(part, kind) && |part| == Size(c, kind)
    && (forall id :: KindOf(id) == kind ==> Occurrences(part, id) == Expected(c, id))
  }

  method InfeasiblePart(c: Config, start: nat) returns (part: seq<Scheduled>)
    ensures IsPart(c, part, InfeasibleKind, start)
  {
    part := ScheduleRounds(c.infeasible, c.infeasiblePerScenario, MakeInfeasible(), InfeasibleKind, start);
    forall id | KindOf(id) == InfeasibleKind ensures Occurrences(part, id) == Expected(c, id) {
      assert id == MakeInfeasible()(id.scenario, id.repetition);
    }
  }

  method AdversarialPart(c: Config, start: nat) returns (part: seq<Scheduled>)
    ensures IsPart(c, part, AdversarialKind, start)
  {
    part := ScheduleRounds(c.attacks, c.trialsPerAttack, MakeAdversarial(), AdversarialKind, start);
    forall id | KindOf(id) == AdversarialKind ensures Occurrences(part, id) == Expected(c, id) {
      assert id == MakeAdversarial()(id.attack, id.trial);
    }
  }

  method ConcurrencyPart(c: Config, start: nat) returns (part: seq<Scheduled>)
    ensures IsPart(c, part, ConcurrencyKind, start)
  {
    var pairs := ScenarioLevels(c.concurrency, c.levels);
    part := ScheduleRounds(pairs, c.concurrencyPerScenarioLevel, MakeConcurrency(), ConcurrencyKind, start);
    forall id | KindOf(id) == ConcurrencyKind ensures Occurrences(part, id) == Expected(c, id) {
      assert id == MakeConcurrency()((id.scenario, id.level), id.repetition);
    }
  }

  method ComponentPart(c: Config, start: nat) returns (part: seq<Scheduled>)
    ensures IsPart(c, part, ComponentKind, start)
  {
    part := ScheduleRounds(c.components, c.componentProcesses, MakeComponent(), ComponentKind, start);
    forall id | KindOf(id) == ComponentKind ensures Occurrences(part, id) == Expected(c, id) {
      assert id == MakeComponent()(id.component, id.process);
    }
  }

  /** What holds of a schedule that has these kinds so far. */
  ghost predicate MeetsDesign(c: Config, observations: seq<Scheduled>, kinds: set<Kind>) {
    && OrderedFrom(observations, 0) && Counts(c, observations, kinds)
    && (forall id :: Occurrences(observations, id) == if KindOf(id) in kinds then Expected(c, id) else 0)
  }

  ghost predicate Counts(c: Config, observations: seq<Scheduled>, kinds: set<Kind>) {
    forall kind :: Count(observations, HasKind(kind)) == if kind in kinds then Size(c, kind) else 0
  }

  /** Every scenario runs every method equally often in every block. */
  ghost predicate BlocksAreBalanced(c: Config, observations: seq<Scheduled>) {
    forall s, m, b: nat :: Count(observations, InCell(s, m, b)) ==
      if 1 <= b <= c.feasibleBlocks then c.repetitionsPerBlock * PerRepetition(c, s, m) else 0
  }

  lemma CountsMore(c: Config, observations: seq<Scheduled>, part: seq<Scheduled>, kinds: set<Kind>, kind: Kind)
    requires Counts(c, observations, kinds) && kind !in kinds && OfKind(part, kind) && |part| == Size(c, kind)
    ensures Counts(c, observations + part, kinds + {kind})
  {
    PartOfKind(part, kind);
    forall other
      ensures Count(observations + part, HasKind(other)) == if other in kinds + {kind} then Size(c, other) else 0
    {
      CountConcat(observations, part, HasKind(other));
    }
  }

  lemma MeetsMore(c: Config, observations: seq<Scheduled>, part: seq<Scheduled>, kinds: set<Kind>, kind: Kind)
    requires MeetsDesign(c, observations, kinds) && kind !in kinds && IsPart(c, part, kind, |observations|)
    ensures MeetsDesign(c, observations + part, kinds + {kind})
  {
    PartOfKind(part, kind);
    OccurrencesConcat(observations, part);
    CountsMore(c, observations, part, kinds, kind);
  }

  lemma BalanceStays(c: Config, observations: seq<Scheduled>, part: seq<Scheduled>, kind: Kind)
    requires BlocksAreBalanced(c, observations) && OfKind(part, kind) && kind != FeasibleKind
    ensures BlocksAreBalanced(c, observations + part)
  {
    PartOfKind(part, kind);
    forall s, m, b: nat { CountConcat(observations, part, InCell(s, m, b)); }
  }

  const ALL_KINDS := {FeasibleKind, InfeasibleKind, AdversarialKind, ConcurrencyKind, ComponentKind}

  method SessionParts(c: Config) returns (observations: seq<Scheduled>)
    ensures MeetsDesign(c, observations, {FeasibleKind, InfeasibleKind}) && BlocksAreBalanced(c, observations)
  {
    var feasible := ScheduleFeasible(c, 0);
    MeetsMore(c, [], feasible, {}, FeasibleKind);
    assert [] + feasible == feasible;
    var infeasible := InfeasiblePart(c, |feasible|);
    MeetsMore(c, feasible, infeasible, {FeasibleKind}, InfeasibleKind);
    BalanceStays(c, feasible, infeasible, InfeasibleKind);
    observations := feasible + infeasible;
  }

  method SessionAndTrialParts(c: Config) returns (observations: seq<Scheduled>)
    ensures MeetsDesign(c, observations, {FeasibleKind, InfeasibleKind, AdversarialKind}) && BlocksAreBalanced(c, observations)
  {
    var sessions := SessionParts(c);
    var adversarial := AdversarialPart(c, |sessions|);
    MeetsMore(c, sessions, adversarial, {FeasibleKind, InfeasibleKind}, AdversarialKind);
    BalanceStays(c, sessions, adversarial, AdversarialKind);
    observations := sessions + adversarial;
  }

  /** Whatever the shuffles, the schedule is the design: each identifier as often as the
      design says, numbered consecutively, every block balanced. */
  method DeterministicSchedule(c: Config) returns (observations: seq<Scheduled>)
    ensures MeetsDesign(c, observations, ALL_KINDS) && BlocksAreBalanced(c, observations)
  {
    observations := SessionAndTrialParts(c);
    var concurrency := ConcurrencyPart(c, |observations|);
    MeetsMore(c, observations, concurrency, {FeasibleKind, InfeasibleKind, AdversarialKind}, ConcurrencyKind);
    BalanceStays(c, observations, concurrency, ConcurrencyKind);
    observations := observations + concurrency;
    var component := ComponentPart(c, |observations|);
    MeetsMore(c, observations, component, {FeasibleKind, InfeasibleKind, AdversarialKind, ConcurrencyKind}, ComponentKind);
    BalanceStays(c, observations, component, ComponentKind);
    observations := observations + component;
  }

  // When the identifiers are distinct.

  /** The name lists that take part in the schedule have no repetitions. */
  ghost predicate NamesAreDistinct(c: Config) {
    && (c.feasibleBlocks > 0 && c.repetitionsPerBlock > 0 ==> NoPairRepeats(c.feasible, c.methods))
    && (c.infeasiblePerScenario > 0 ==> Distinct(c.infeasible))
    && (c.trialsPerAttack > 0 ==> Distinct(c.attacks))
    && (c.concurrencyPerScenarioLevel > 0 ==> NoPairRepeats(c.concurrency, c.levels))
    && (c.componentProcesses > 0 ==> Distinct(c.components))
  }

  ghost predicate NoPairRepeats<T, U>(a: seq<T>, b: seq<U>) {
    (b != [] ==> Distinct(a)) && (a != [] ==> Distinct(b))
  }

  lemma PairsOnce<T(!new), U(!new)>(a: seq<T>, b: seq<U>)
    ensures NoPairRepeats(a, b) <==> forall x, y :: Often(a, x) * Often(b, y) <= 1
  {
    DistinctIffMultiplicity(a);
    DistinctIffMultiplicity(b);
    if NoPairRepeats(a, b) {
      forall x, y ensures Often(a, x) * Often(b, y) <= 1 {
        if a == [] { assert Often(a, x) == 0; }
        if b == [] { assert Often(b, y) == 0; }
      }
    }
    if forall x, y :: Often(a, x) * Often(b, y) <= 1 {
      if b != [] {
        assert b[0] in multiset(b);
        forall x ensures multiset(a)[x] <= 1 { FactorOnce(Often(a, x), Often(b, b[0])); }
      }
      if a != [] {
        assert a[0] in multiset(a);
        forall y ensures multiset(b)[y] <= 1 { FactorOnce(Often(b, y), Often(a, a[0])); }
      }
    }
  }

  lemma FactorOnce(x: nat, y: nat)
    requires x * y <= 1 && y > 0
    ensures x <= 1
  {
    assert x >= 2 ==> x * y >= 2 * y;
  }

  lemma FeasibleOnce(c: Config)
    ensures (forall id: ObservationId :: id.Feasible? ==> Expected(c, id) <= 1) <==>
            (c.feasibleBlocks > 0 && c.repetitionsPerBlock > 0 ==> NoPairRepeats(c.feasible, c.methods))
  {
    PairsOnce(c.feasible, c.methods);
    if c.feasibleBlocks > 0 && c.repetitionsPerBlock > 0 {
      if forall id: ObservationId :: id.Feasible? ==> Expected(c, id) <= 1 {
        forall s, m ensures Often(c.feasible, s) * Often(c.methods, m) <= 1 {
          assert Expected(c, Feasible(s, m, 1, 1)) <= 1;
        }
      }
    } else {
      forall id: ObservationId | id.Feasible? ensures Expected(c, id) == 0 {
        if c.repetitionsPerBlock == 0 { assert id.block * c.repetitionsPerBlock == 0; }
      }
    }
  }

  lemma ConcurrencyOnce(c: Config)
    ensures (forall id: ObservationId :: id.Concurrency? ==> Expected(c, id) <= 1) <==>
            (c.concurrencyPerScenarioLevel > 0 ==> NoPairRepeats(c.concurrency, c.levels))
  {
    PairsOnce(c.concurrency, c.levels);
    if c.concurrencyPerScenarioLevel > 0 {
      if forall id: ObservationId :: id.Concurrency? ==> Expected(c, id) <= 1 {
        forall s, l ensures Often(c.concurrency, s) * Often(c.levels, l) <= 1 {
          assert Expected(c, Concurrency(s, l, 1)) <= 1;
        }
      }
    }
  }

  lemma OtherKindsOnce(c: Config)
    ensures (forall id: ObservationId :: id.Infeasible? ==> Expected(c, id) <= 1) <==>
            (c.infeasiblePerScenario > 0 ==> Distinct(c.infeasible))
    ensures (forall id: ObservationId :: id.Adversarial? ==> Expected(c, id) <= 1) <==>
            (c.trialsPerAttack > 0 ==> Distinct(c.attacks))
    ensures (forall id: ObservationId :: id.Component? ==> Expected(c, id) <= 1) <==>
            (c.componentProcesses > 0 ==> Distinct(c.components))
  {
    DistinctIffMultiplicity(c.infeasible);
    DistinctIffMultiplicity(c.attacks);
    DistinctIffMultiplicity(c.components);
    forall s ensures c.infeasiblePerScenario > 0 ==> Expected(c, Infeasible(s, 1)) == multiset(c.infeasible)[s] {}
    forall a ensures c.trialsPerAttack > 0 ==> Expected(c, Adversarial(a, 1)) == multiset(c.attacks)[a] {}
    forall n ensures c.componentProcesses > 0 ==> Expected(c, Component(n, 1)) == multiset(c.components)[n] {}
  }

  /** The scheduled identifiers are distinct exactly when the names of the design are. */
  lemma IdsAreDistinctIffNamesAre(c: Config, observations: seq<Scheduled>)
    requires MeetsDesign(c, observations, ALL_KINDS)
    ensures Distinct(Ids(observations)) <==> NamesAreDistinct(c)
  {
    DistinctIffMultiplicity(Ids(observations));
    assert forall id :: KindOf(id) in ALL_KINDS && Occurrences(observations, id) == Expected(c, id);
    assert Distinct(Ids(observations)) <==> forall id :: Expected(c, id) <= 1;
    FeasibleOnce(c);
    ConcurrencyOnce(c);
    OtherKindsOnce(c);
  }
}
