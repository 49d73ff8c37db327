/** Deletion-based shrinking of unsatisfiable cores (negotiation/unsat_core.py). */
module UnsatCore {
  import opened Wrappers
  import opened Sorting
  import opened ConflictConstraints

  datatype IusResult = IusResult(
    originalConstraintCount: nat,
    core: seq<NamedConstraint>,
    ius: seq<NamedConstraint>,
    solverCalls: nat)

  datatype IusError =
    | DuplicateInIus
    | OutsideModel(ids: seq<string>)
    | SatisfiableIus
    | NotIrreducible(id: string)

  predicate IdLe(a: NamedConstraint, b: NamedConstraint) {
    StrLe(a.constraintId, b.constraintId)
  }

  lemma IdOrder()
    ensures TotalPreorder(IdLe)
  {
    StrOrder();
  }

  /** Dropping any one member makes the set satisfiable. */
  ghost predicate Irreducible(profileIds: seq<string>, cs: seq<NamedConstraint>) {
    forall i :: 0 <= i < |cs| ==> Satisfiable(profileIds, RemoveAt(cs, i))
  }

  ghost predicate IsIus(profileIds: seq<string>, cs: seq<NamedConstraint>) {
    !Satisfiable(profileIds, cs) && Irreducible(profileIds, cs)
  }

  // One forward sweep, the reference for the restarting loop.

  /** Each constraint of `todo` in turn is dropped if the rest stays unsatisfiable. */
  ghost function Sweep(profileIds: seq<string>, kept: seq<NamedConstraint>, todo: seq<NamedConstraint>): seq<NamedConstraint>
    decreases |todo|
  {
    if todo == [] then kept
    else if !Satisfiable(profileIds, kept + todo[1..]) then Sweep(profileIds, kept, todo[1..])
    else Sweep(profileIds, kept + [todo[0]], todo[1..])
  }

  /** What a sweep has kept it never loses. */
  lemma {:induction false} SweepKeeps(profileIds: seq<string>, kept: seq<NamedConstraint>, todo: seq<NamedConstraint>)
    ensures kept <= Sweep(profileIds, kept, todo)
    ensures |Sweep(profileIds, kept, todo)| <= |kept| + |todo|
    decreases |todo|
  {
    if todo == [] {
    } else if !Satisfiable(profileIds, kept + todo[1..]) {
      SweepKeeps(profileIds, kept, todo[1..]);
    } else {
      SweepKeeps(profileIds, kept + [todo[0]], todo[1..]);
    }
  }

  /** The first `n` members are critical: none of them can be dropped alone. */
  ghost predicate CriticalPrefix(profileIds: seq<string>, cs: seq<NamedConstraint>, n: nat)
    requires n <= |cs|
  {
    forall j :: 0 <= j < n ==> Satisfiable(profileIds, RemoveAt(cs, j))
  }

  /** A sweep passes over a critical prefix. */
  lemma {:induction false} SweepSkipsCritical(profileIds: seq<string>, cs: seq<NamedConstraint>, n: nat)
    requires n <= |cs| && CriticalPrefix(profileIds, cs, n)
    ensures Sweep(profileIds, [], cs) == Sweep(profileIds, cs[..n], cs[n..])
  {
    if n == 0 {
      assert cs[0..] == cs && cs[..0] == [];
    } else {
      SweepSkipsCritical(profileIds, cs, n - 1);
      assert cs[n-1..][1..] == cs[n..] && cs[n-1..][0] == cs[n-1];
      assert cs[..n-1] + cs[n..] == RemoveAt(cs, n - 1);
      assert cs[..n-1] + [cs[n-1]] == cs[..n];
    }
  }

  /** A constraint found critical stays critical after a later deletion. */
  lemma CriticalStaysCritical(profileIds: seq<string>, cs: seq<NamedConstraint>, n: nat)
    requires n < |cs| && CriticalPrefix(profileIds, cs, n)
    ensures CriticalPrefix(profileIds, RemoveAt(cs, n), n)
  {
    var fewer := RemoveAt(cs, n);
    forall j | 0 <= j < n ensures Satisfiable(profileIds, RemoveAt(fewer, j)) {
      forall c | c in RemoveAt(fewer, j) ensures c in RemoveAt(cs, j) {
        var k :| 0 <= k < |RemoveAt(fewer, j)| && RemoveAt(fewer, j)[k] == c;
        assert c == RemoveAt(cs, j)[if k < n - 1 then k else k + 1];
      }
      FewerConstraintsStaySatisfiable(profileIds, RemoveAt(cs, j), RemoveAt(fewer, j));
    }
  }

  /** Restarting after a deletion reaches what the sweep reaches. */
  lemma RestartMatchesSweep(profileIds: seq<string>, cs: seq<NamedConstraint>, n: nat)
    requires n < |cs| && CriticalPrefix(profileIds, cs, n) && !Satisfiable(profileIds, RemoveAt(cs, n))
    ensures Sweep(profileIds, [], RemoveAt(cs, n)) == Sweep(profileIds, [], cs)
    ensures n <= |Sweep(profileIds, [], cs)|
  {
    var fewer := RemoveAt(cs, n);
    SweepSkipsCritical(profileIds, cs, n);
    CriticalStaysCritical(profileIds, cs, n);
    SweepSkipsCritical(profileIds, fewer, n);
    assert fewer[..n] == cs[..n] && fewer[n..] == cs[n..][1..];
    assert cs[..n] + cs[n..][1..] == fewer;
    SweepKeeps(profileIds, cs[..n], cs[n..]);
  }

  /** The last round of the loop is a sweep that keeps everything. */
  lemma IrreducibleIsItsOwnSweep(profileIds: seq<string>, cs: seq<NamedConstraint>)
    requires Irreducible(profileIds, cs)
    ensures Sweep(profileIds, [], cs) == cs
  {
    SweepSkipsCritical(profileIds, cs, |cs|);
    assert cs[..|cs|] == cs && cs[|cs|..] == [];
  }

  // Ordering and identifiers of intermediate lists.

  ghost predicate Canonical(cs: seq<NamedConstraint>) {
    DistinctIds(cs) && SortedBy(cs, IdLe)
  }

  lemma DistinctIdsByMembers(cs: seq<NamedConstraint>)
    ensures DistinctIds(cs) <==>
              Distinct(cs) && forall c, d :: c in cs && d in cs && c.constraintId == d.constraintId ==> c == d
  {
    assert forall i :: 0 <= i < |cs| ==> Ids(cs)[i] == cs[i].constraintId;
    if DistinctIds(cs) {
      forall i, j | 0 <= i < j < |cs| ensures cs[i] != cs[j] { assert Ids(cs)[i] != Ids(cs)[j]; }
    }
  }

  lemma IdsDistinctUnderPermutation(a: seq<NamedConstraint>, b: seq<NamedConstraint>)
    requires DistinctIds(a) && multiset(a) == multiset(b)
    ensures DistinctIds(b)
  {
    DistinctIdsByMembers(a);
    DistinctIdsByMembers(b);
    DistinctIffMultiplicity(a);
    DistinctIffMultiplicity(b);
    MembersOfPermutation(a, b);
  }

  lemma SortedIdsStayDistinct(cs: seq<NamedConstraint>)
    requires DistinctIds(cs)
    ensures Canonical(SortBy(cs, IdLe))
  {
    IdOrder();
    SortSorted(cs, IdLe);
    SortPermutes(cs, IdLe);
    IdsDistinctUnderPermutation(cs, SortBy(cs, IdLe));
  }

  method LabelMap(ordered: seq<NamedConstraint>) returns (byLabel: map<string, NamedConstraint>)
    requires DistinctIds(ordered)
    ensures byLabel.Keys == set id | id in Ids(ordered)
    ensures forall id :: id in byLabel ==> byLabel[id] in ordered && byLabel[id].constraintId == id
    ensures forall c :: c in ordered ==> c.constraintId in byLabel && byLabel[c.constraintId] == c
  {
    byLabel := map[];
    for i := 0 to |ordered|
      invariant byLabel.Keys == set k | 0 <= k < i :: Ids(ordered)[k]
      invariant forall id :: id in byLabel ==> byLabel[id] in ordered && byLabel[id].constraintId == id
      invariant forall k :: 0 <= k < i ==> Ids(ordered)[k] in byLabel && byLabel[Ids(ordered)[k]] == ordered[k]
    {
      byLabel := byLabel[ordered[i].constraintId := ordered[i]];
    }
  }

  /** The listed labels, as the constraints of the model that carry them. */
  method ConstraintsOf(ordered: seq<NamedConstraint>, core: set<string>) returns (listed: seq<NamedConstraint>)
    requires DistinctIds(ordered) && forall id :: id in core ==> id in Ids(ordered)
    ensures DistinctIds(listed)
    ensures forall c :: c in listed <==> c in ordered && c.constraintId in core
  {
    var byLabel := LabelMap(ordered);
    listed := [];
    var left := core;
    while left != {}
      invariant left <= core
      invariant DistinctIds(listed)
      invariant forall k :: 0 <= k < |listed| ==> listed[k].constraintId in core - left
      invariant forall c :: c in listed <==> c in ordered && c.constraintId in core - left
      decreases left
    {
      var id :| id in left;
      assert id in Ids(ordered);
      assert Ids(listed + [byLabel[id]]) == Ids(listed) + [id];
      assert forall k :: 0 <= k < |listed| ==> Ids(listed)[k] != id;
      listed := listed + [byLabel[id]];
      assert core - (left - {id}) == (core - left) + {id};
      left := left - {id};
    }
    assert core - left == core;
  }

  lemma {:induction false} FewerIdsThanConstraints(ordered: seq<NamedConstraint>, core: set<string>)
    requires forall id :: id in core ==> id in Ids(ordered)
    ensures |core| <= |ordered|
  {
    if ordered == [] {
      assert core == {};
    } else {
      var id := ordered[0].constraintId;
      forall other | other in core - {id} ensures other in Ids(ordered[1..]) {
        var k :| 0 <= k < |ordered| && Ids(ordered)[k] == other;
        assert Ids(ordered[1..])[k-1] == other;
      }
      FewerIdsThanConstraints(ordered[1..], core - {id});
      if id in core {
        assert |core - {id}| == |core| - 1;
      } else {
        assert core - {id} == core;
      }
    }
  }

  // The two operations.

  method ComputeIus(profileIds: seq<string>, constraints: seq<NamedConstraint>, mayGiveUp: bool)
      returns (r: Result<IusResult, ConflictError>)
    ensures !DistinctIds(constraints) ==> r.Err? && r.error.DuplicateConstraint?
    ensures DistinctIds(constraints) && Satisfiable(profileIds, constraints) ==> r == Err(SatisfiableModel)
    ensures !mayGiveUp && DistinctIds(constraints) && !Satisfiable(profileIds, constraints) ==> r.Ok?
    ensures r.Ok? ==>
              && r.value.originalConstraintCount == |constraints|
              && (forall c :: c in r.value.core ==> c in constraints)
              && IsCoreOf(profileIds, r.value)
    ensures r.Ok? && !mayGiveUp ==> IsShrunk(profileIds, r.value)
  {
    var ordered := SortBy(constraints, IdLe);
    OrderedConstraints(profileIds, constraints, ordered);
    var built := BuildFeasibilityModel(profileIds, ordered);
    if built.Err? {
      return Err(built.error);
    }
    var core := FirstCore(built.value, mayGiveUp);
    if core == None {
      return Err(SatisfiableModel);
    }
    var result := IusWithin(profileIds, |ordered|, core.value, mayGiveUp);
    r := Ok(result);
  }

  /** The result for a core; the call that found the core counts as the first. */
  method IusWithin(profileIds: seq<string>, constraintCount: nat, core: seq<NamedConstraint>, mayGiveUp: bool) returns (r: IusResult)
    requires Canonical(core) && !Satisfiable(profileIds, core)
    ensures r.originalConstraintCount == constraintCount && r.core == core && IsCoreOf(profileIds, r)
    ensures !mayGiveUp ==> IsShrunk(profileIds, r)
  {
    var solverCalls := 1;
    var remaining, trialCalls := ShrinkCore(profileIds, core, mayGiveUp);
    SortOfSorted(remaining);
    r := IusResult(constraintCount, core, SortBy(remaining, IdLe), solverCalls + trialCalls);
  }

  /** Both sets are canonical and unsatisfiable, the second within the first. */
  ghost predicate IsCoreOf(profileIds: seq<string>, r: IusResult) {
    && Canonical(r.core) && Canonical(r.ius) && (forall c :: c in r.ius ==> c in r.core)
    && !Satisfiable(profileIds, r.core) && !Satisfiable(profileIds, r.ius)
  }

  /** The result is irreducible, is what one forward sweep over the core leaves, and took
      between `1 + m` and `1 + (m - n)(n + 1) + n` solver calls, from `m` constraints to `n`. */
  ghost predicate IsShrunk(profileIds: seq<string>, r: IusResult) {
    && IsIus(profileIds, r.ius)
    && r.ius == Sweep(profileIds, [], r.core)
    && 1 + |r.core| <= r.solverCalls
    && r.solverCalls <= 1 + (|r.core| - |r.ius|) * (|r.ius| + 1) + |r.ius|
  }

  lemma OrderedConstraints(profileIds: seq<string>, constraints: seq<NamedConstraint>, ordered: seq<NamedConstraint>)
    requires ordered == SortBy(constraints, IdLe)
    ensures |ordered| == |constraints| && forall c :: c in ordered <==> c in constraints
    ensures DistinctIds(ordered) <==> DistinctIds(constraints)
    ensures Satisfiable(profileIds, ordered) <==> Satisfiable(profileIds, constraints)
  {
    SortMembers(constraints, IdLe);
    SortPermutes(constraints, IdLe);
    if DistinctIds(ordered) { IdsDistinctUnderPermutation(ordered, constraints); }
    if DistinctIds(constraints) { IdsDistinctUnderPermutation(constraints, ordered); }
    if Satisfiable(profileIds, constraints) { FewerConstraintsStaySatisfiable(profileIds, constraints, ordered); }
    if Satisfiable(profileIds, ordered) { FewerConstraintsStaySatisfiable(profileIds, ordered, constraints); }
  }

  /** The solver's core as constraints in order, or nothing unless it answers unsatisfiable. */
  method FirstCore(model: FeasibilityModel, mayGiveUp: bool) returns (core: Option<seq<NamedConstraint>>)
    requires DistinctIds(model.constraints) && Faithful(model)
    ensures core.Some? ==>
              && Canonical(core.value) && (forall c :: c in core.value ==> c in model.constraints)
              && !Satisfiable(model.profileIds, core.value) && !Satisfiable(model.profileIds, model.constraints)
    ensures !mayGiveUp && !Satisfiable(model.profileIds, model.constraints) ==> core.Some?
  {
    var status := CheckModel(model, true, mayGiveUp);
    if !status.Unsat? {
      return None;
    }
    var listed := ConstraintsOf(model.constraints, status.core);
    SortedIdsStayDistinct(listed);
    SortMembers(listed, IdLe);
    core := Some(SortBy(listed, IdLe));
    assert !Satisfiable(model.profileIds, core.value);
  }

  /** The check of what is left without one constraint. */
  method TryDeletion(profileIds: seq<string>, remaining: seq<NamedConstraint>, i: nat, mayGiveUp: bool)
      returns (trial: seq<NamedConstraint>, stillUnsat: bool)
    requires Canonical(remaining) && i < |remaining|
    ensures trial == RemoveAt(remaining, i) && Canonical(trial)
    ensures stillUnsat ==> !Satisfiable(profileIds, trial)
    ensures !mayGiveUp && !stillUnsat ==> Satisfiable(profileIds, trial)
  {
    trial := WithoutId(remaining, remaining[i].constraintId);
    WithoutIdIsRemoveAt(remaining, i);
    var trialModel := BuildFeasibilityModel(profileIds, trial);
    var answer := CheckModel(trialModel.value, false, mayGiveUp);
    stillUnsat := answer.Unsat?;
  }

  /** One round of the loop: up to the first constraint that can go. */
  method DeleteFirstPossible(profileIds: seq<string>, remaining: seq<NamedConstraint>, mayGiveUp: bool)
      returns (next: seq<NamedConstraint>, changed: bool, calls: nat)
    requires Canonical(remaining) && !Satisfiable(profileIds, remaining)
    ensures Canonical(next) && !Satisfiable(profileIds, next)
    ensures forall c :: c in next ==> c in remaining
    ensures if changed then |next| == |remaining| - 1 && calls >= 1 else next == remaining && calls == |remaining|
    ensures !mayGiveUp && !changed ==> Irreducible(profileIds, remaining)
    ensures !mayGiveUp && changed ==>
              && Sweep(profileIds, [], next) == Sweep(profileIds, [], remaining)
              && calls <= |Sweep(profileIds, [], remaining)| + 1
  {
    calls := 0;
    for i := 0 to |remaining|
      invariant calls == i
      invariant !mayGiveUp ==> CriticalPrefix(profileIds, remaining, i)
    {
      var trial, stillUnsat := TryDeletion(profileIds, remaining, i, mayGiveUp);
      calls := calls + 1;
      if stillUnsat {
        if !mayGiveUp { RestartMatchesSweep(profileIds, remaining, i); }
        return trial, true, calls;
      }
    }
    return remaining, false, calls;
  }

  /** The restarting loop: after every deletion it begins again from the front. */
  method ShrinkCore(profileIds: seq<string>, core: seq<NamedConstraint>, mayGiveUp: bool)
      returns (remaining: seq<NamedConstraint>, solverCalls: nat)
    requires Canonical(core) && !Satisfiable(profileIds, core)
    ensures Canonical(remaining) && !Satisfiable(profileIds, remaining)
    ensures forall c :: c in remaining ==> c in core
    ensures !mayGiveUp ==>
              && Irreducible(profileIds, remaining)
              && remaining == Sweep(profileIds, [], core)
              && |core| <= solverCalls <= (|core| - |remaining|) * (|remaining| + 1) + |remaining|
  {
    remaining, solverCalls := core, 0;
    var changed := true;
    ghost var final := Sweep(profileIds, [], core);
    while changed
      invariant Canonical(remaining) && !Satisfiable(profileIds, remaining)
      invariant forall c :: c in remaining ==> c in core
      invariant |remaining| <= |core|
      invariant !mayGiveUp ==> Sweep(profileIds, [], remaining) == final
      invariant !mayGiveUp && !changed ==> Irreducible(profileIds, remaining)
      invariant (|core| - |remaining|) + (if changed then 0 else |remaining|) <= solverCalls
      invariant !mayGiveUp ==>
                  solverCalls <= (|core| - |remaining|) * (|final| + 1) + (if changed then 0 else |remaining|)
      decreases |remaining|, changed
    {
      var calls;
      ghost var removed := |core| - |remaining|;
      remaining, changed, calls := DeleteFirstPossible(profileIds, remaining, mayGiveUp);
      solverCalls := solverCalls + calls;
      StepBudget(removed + 1, |final|);
    }
    if !mayGiveUp { IrreducibleIsItsOwnSweep(profileIds, remaining); }
  }

  lemma StepBudget(removed: nat, kept: nat)
    requires removed >= 1
    ensures removed * (kept + 1) == (removed - 1) * (kept + 1) + kept + 1
  {
  }

  /** Sorting a canonical list changes nothing. */
  lemma {:induction false} SortOfSorted(cs: seq<NamedConstraint>)
    requires SortedBy(cs, IdLe)
    ensures SortBy(cs, IdLe) == cs
  {
    if cs != [] {
      SortOfSorted(cs[1..]);
      assert cs == [cs[0]] + cs[1..];
    }
  }

  ghost predicate KnownIds(allConstraints: seq<NamedConstraint>, ius: seq<NamedConstraint>) {
    forall id :: id in Ids(ius) ==> id in Ids(allConstraints)
  }

  /** Repeated identifiers raise while the model is built, so the error
      `DuplicateInIus` is recorded but never returned. */
  method VerifyIus(profileIds: seq<string>, allConstraints: seq<NamedConstraint>, ius: seq<NamedConstraint>, mayGiveUp: bool)
      returns (r: Result<seq<IusError>, ConflictError>)
    ensures r.Ok? <==> DistinctIds(ius)
    ensures r.Ok? ==> DuplicateInIus !in r.value
    ensures r.Ok? ==> forall e :: e in r.value && e.OutsideModel? ==> ListsUnknown(allConstraints, ius, e.ids)
    ensures r.Ok? && r.value == [] ==> IsIus(profileIds, ius) && KnownIds(allConstraints, ius)
    ensures r.Ok? && !mayGiveUp ==>
              && (r.value == [] <==> IsIus(profileIds, ius) && KnownIds(allConstraints, ius))
              && (SatisfiableIus in r.value <==> Satisfiable(profileIds, ius))
              && (forall i :: 0 <= i < |ius| ==>
                   (NotIrreducible(ius[i].constraintId) in r.value <==>
                     !Satisfiable(profileIds, ius) && !Satisfiable(profileIds, RemoveAt(ius, i))))
  {
    var errors := IdErrors(allConstraints, ius);
    var built := BuildFeasibilityModel(profileIds, ius);
    if built.Err? {
      return Err(built.error);
    }
    var status := CheckModel(built.value, false, mayGiveUp);
    if !status.Unsat? {
      return Ok(errors + [SatisfiableIus]);
    }
    var failures := TryRemovals(profileIds, ius, mayGiveUp);
    assert errors + failures == [] <==> errors == [] && failures == [];
    r := Ok(errors + failures);
  }

  /** The identifiers that the model does not have, sorted. */
  ghost predicate ListsUnknown(allConstraints: seq<NamedConstraint>, ius: seq<NamedConstraint>, ids: seq<string>) {
    && SortedBy(ids, StrLe) && Distinct(ids)
    && forall id :: id in ids <==> id in Ids(ius) && id !in Ids(allConstraints)
  }

  /** The checks on identifiers alone. */
  method IdErrors(allConstraints: seq<NamedConstraint>, ius: seq<NamedConstraint>) returns (errors: seq<IusError>)
    ensures forall e :: e in errors ==> e.DuplicateInIus? || e.OutsideModel?
    ensures DuplicateInIus in errors <==> !DistinctIds(ius)
    ensures errors == [] <==> DistinctIds(ius) && KnownIds(allConstraints, ius)
    ensures forall e :: e in errors && e.OutsideModel? ==> ListsUnknown(allConstraints, ius, e.ids)
  {
    errors := [];
    var allIds := set c | c in allConstraints :: c.constraintId;
    var iusIds := Ids(ius);
    var idSet := set id | id in iusIds;
    DistinctIffFullSet(iusIds);
    if |iusIds| != |idSet| {
      errors := errors + [DuplicateInIus];
    }
    var unknown := set id | id in iusIds && id !in allIds;
    UnknownIdsAreUnknown(allConstraints, ius, allIds, unknown);
    if unknown != {} {
      StrOrder();
      var listed := SortedSet(unknown, StrLe);
      errors := errors + [OutsideModel(listed)];
    }
  }

  /** One error for every member whose removal was not answered satisfiable. */
  method TryRemovals(profileIds: seq<string>, ius: seq<NamedConstraint>, mayGiveUp: bool) returns (failures: seq<IusError>)
    requires DistinctIds(ius)
    ensures forall e :: e in failures ==> e.NotIrreducible?
    ensures failures == [] ==> Irreducible(profileIds, ius)
    ensures !mayGiveUp && Irreducible(profileIds, ius) ==> failures == []
    ensures !mayGiveUp ==> forall i :: 0 <= i < |ius| ==>
              (NotIrreducible(ius[i].constraintId) in failures <==> !Satisfiable(profileIds, RemoveAt(ius, i)))
  {
    failures := [];
    for i := 0 to |ius|
      invariant forall e :: e in failures ==> e.NotIrreducible?
      invariant failures == [] ==> CriticalPrefix(profileIds, ius, i)
      invariant !mayGiveUp && CriticalPrefix(profileIds, ius, i) ==> failures == []
      invariant !mayGiveUp ==> forall k :: 0 <= k < i ==>
                  (NotIrreducible(ius[k].constraintId) in failures <==> !Satisfiable(profileIds, RemoveAt(ius, k)))
      invariant forall k :: i <= k < |ius| ==> NotIrreducible(ius[k].constraintId) !in failures
    {
      var remainder := WithoutId(ius, ius[i].constraintId);
      WithoutIdIsRemoveAt(ius, i);
      var remainderModel := BuildFeasibilityModel(profileIds, remainder);
      var answer := CheckModel(remainderModel.value, false, mayGiveUp);
      assert forall k :: 0 <= k < |ius| && k != i ==> Ids(ius)[k] != Ids(ius)[i];
      if !answer.Sat? {
        failures := failures + [NotIrreducible(ius[i].constraintId)];
      }
    }
    if Irreducible(profileIds, ius) { assert CriticalPrefix(profileIds, ius, |ius|); }
  }

  lemma UnknownIdsAreUnknown(allConstraints: seq<NamedConstraint>, ius: seq<NamedConstraint>, allIds: set<string>, unknown: set<string>)
    requires allIds == set c | c in allConstraints :: c.constraintId
    requires unknown == set id | id in Ids(ius) && id !in allIds
    ensures unknown == {} <==> KnownIds(allConstraints, ius)
    ensures forall id :: id in unknown <==> id in Ids(ius) && id !in Ids(allConstraints)
  {
    forall id ensures id in allIds <==> id in Ids(allConstraints) {
      if id in allIds {
        var c :| c in allConstraints && c.constraintId == id;
        var i :| 0 <= i < |allConstraints| && allConstraints[i] == c;
        assert Ids(allConstraints)[i] == id;
      }
      if id in Ids(allConstraints) {
        var i :| 0 <= i < |allConstraints| && Ids(allConstraints)[i] == id;
        assert allConstraints[i] in allConstraints;
      }
    }
    if unknown == {} {
      forall id | id in Ids(ius) ensures id in allIds { assert id !in unknown; }
    }
  }

  // What an irreducible set tells.

  /** Irreducible means subset-minimal: nothing properly smaller is a conflict. */
  lemma IusIsSubsetMinimal(profileIds: seq<string>, ius: seq<NamedConstraint>, smaller: seq<NamedConstraint>)
    requires Irreducible(profileIds, ius)
    requires (forall c :: c in smaller ==> c in ius) && exists c :: c in ius && c !in smaller
    ensures Satisfiable(profileIds, smaller)
  {
    var c :| c in ius && c !in smaller;
    var i :| 0 <= i < |ius| && ius[i] == c;
    forall d | d in smaller ensures d in RemoveAt(ius, i) {
      var k :| 0 <= k < |ius| && ius[k] == d;
      assert d == RemoveAt(ius, i)[if k < i then k else k - 1];
    }
    FewerConstraintsStaySatisfiable(profileIds, RemoveAt(ius, i), smaller);
  }

  /** The profile positions that dropping one constraint would free. */
  ghost predicate Freed(profileIds: seq<string>, cs: seq<NamedConstraint>, i: nat, x: int)
    requires i < |cs|
  {
    Allows(profileIds, RemoveAt(cs, i), x)
  }

  lemma FreedAndInScopeIsAllowed(profileIds: seq<string>, cs: seq<NamedConstraint>, i: nat, x: int)
    requires i < |cs| && Freed(profileIds, cs, i, x) && profileIds[x] in cs[i].profileScope
    ensures Allows(profileIds, cs, x)
  {
    forall c | c in cs ensures profileIds[x] in c.profileScope {
      var k :| 0 <= k < |cs| && cs[k] == c;
      if k != i { assert c == RemoveAt(cs, i)[if k < i then k else k - 1]; }
    }
  }

  /** Different members of a certificate free nonempty, disjoint sets of
      profiles; none of them is in the scope of the member it is freed by. */
  lemma FreedProfilesAreDisjoint(profileIds: seq<string>, ius: seq<NamedConstraint>, i: nat, j: nat)
    requires IsIus(profileIds, ius) && i < |ius| && j < |ius| && i != j
    ensures exists x :: Freed(profileIds, ius, i, x)
    ensures forall x :: Freed(profileIds, ius, i, x) ==>
              !Freed(profileIds, ius, j, x) && profileIds[x] !in ius[i].profileScope
  {
    assert Satisfiable(profileIds, RemoveAt(ius, i));
    var x0 :| Allows(profileIds, RemoveAt(ius, i), x0);
    assert Freed(profileIds, ius, i, x0);
    forall x | Freed(profileIds, ius, i, x)
      ensures !Freed(profileIds, ius, j, x) && profileIds[x] !in ius[i].profileScope
    {
      if profileIds[x] in ius[i].profileScope { FreedAndInScopeIsAllowed(profileIds, ius, i, x); }
    }
  }

  lemma {:induction false} PickFreed(profileIds: seq<string>, ius: seq<NamedConstraint>, upTo: nat) returns (freed: seq<int>)
    requires IsIus(profileIds, ius) && upTo <= |ius|
    ensures |freed| == upTo && forall i :: 0 <= i < upTo ==> Freed(profileIds, ius, i, freed[i])
  {
    freed := [];
    if upTo > 0 {
      freed := PickFreed(profileIds, ius, upTo - 1);
      assert Satisfiable(profileIds, RemoveAt(ius, upTo - 1));
      var x :| Allows(profileIds, RemoveAt(ius, upTo - 1), x);
      freed := freed + [x];
    }
  }

  /** No certificate is longer than the profile universe. */
  lemma IusSizeBound(profileIds: seq<string>, ius: seq<NamedConstraint>)
    requires IsIus(profileIds, ius)
    ensures |ius| <= |profileIds|
  {
    var freed := PickFreed(profileIds, ius, |ius|);
    forall i, j | 0 <= i < j < |freed| ensures freed[i] != freed[j] {
      FreedProfilesAreDisjoint(profileIds, ius, i, j);
    }
    Pigeonhole(freed, |profileIds|);
  }

  /** A computed certificate passes its own verification. */
  method CertifyAndVerify(profileIds: seq<string>, constraints: seq<NamedConstraint>)
      returns (errors: seq<IusError>, size: nat)
    requires DistinctIds(constraints) && !Satisfiable(profileIds, constraints)
    ensures errors == [] && size <= |profileIds| && size <= |constraints|
  {
    var r := ComputeIus(profileIds, constraints, false);
    var ius := r.value.ius;
    var checked := VerifyIus(profileIds, constraints, ius, false);
    forall id | id in Ids(ius) ensures id in Ids(constraints) {
      var k :| 0 <= k < |ius| && Ids(ius)[k] == id;
      assert ius[k] in r.value.core;
      var i :| 0 <= i < |constraints| && constraints[i] == ius[k];
      assert Ids(constraints)[i] == id;
    }
    IusSizeBound(profileIds, ius);
    errors, size := checked.value, |ius|;
    assert (set id | id in Ids(ius)) <= (set id | id in Ids(constraints));
    DistinctIffFullSet(Ids(ius));
    FewerIdsThanConstraints(constraints, set id | id in Ids(ius));
  }
}
