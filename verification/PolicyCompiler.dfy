/** Local policy compilation: enumeration, independent re-check and explanation
    (policy/compiler.py, policy/validation.py). */
module PolicyCompiler {
  import opened Wrappers
  import opened Sorting
  import opened Assurance
  import opened PolicyMapper
  import opened PolicyEncoding

  datatype Time = Naive | Aware(utc: int)

  datatype Manifest = Manifest(agentId: string, supported: seq<string>, monotonicVersion: int, issuedAt: int, expiresAt: int)

  datatype Catalog = Catalog(version: string, profiles: seq<Profile>)

  datatype CompileError =
    | NaiveEvaluationTime | CatalogVersionMismatch | AgentMismatch | ManifestVersionNotPositive | ManifestNotValid
    | UnknownProfiles(source: string)
    | SolverGaveUp
    | UnsatWithoutViolation(profileId: string)
    | EnumerationDiffers

  datatype Decision = Decision(profileId: string, accepted: bool, violated: seq<Category>, core: seq<Category>)

  datatype Compilation = Compilation(derivation: Derivation, safeProfileIds: seq<string>, decisions: seq<Decision>)

  // Inputs.

  function ProfileIds(profiles: seq<Profile>): seq<string> {
    seq(|profiles|, i requires 0 <= i < |profiles| => profiles[i].profileId)
  }

  ghost predicate AllKnown(ids: seq<string>, profiles: seq<Profile>) {
    forall id :: id in ids ==> id in ProfileIds(profiles)
  }

  ghost predicate ValidInputs(catalog: Catalog, manifest: Manifest, policy: Policy, time: Time) {
    && time.Aware? && catalog.version == policy.catalogVersion && manifest.agentId == policy.agentId
    && manifest.monotonicVersion > 0 && manifest.issuedAt <= time.utc < manifest.expiresAt
    && AllKnown(manifest.supported + policy.allowed + policy.denied, catalog.profiles)
  }

  method ValidateCompilationInputs(catalog: Catalog, manifest: Manifest, policy: Policy, time: Time) returns (r: Result<int, CompileError>)
    ensures r.Ok? <==> ValidInputs(catalog, manifest, policy, time)
    ensures r.Ok? ==> r.value == time.utc
  {
    if time.Naive? { return Err(NaiveEvaluationTime); }
    if catalog.version != policy.catalogVersion { return Err(CatalogVersionMismatch); }
    if manifest.agentId != policy.agentId { return Err(AgentMismatch); }
    if manifest.monotonicVersion <= 0 { return Err(ManifestVersionNotPositive); }
    if !(manifest.issuedAt <= time.utc < manifest.expiresAt) { return Err(ManifestNotValid); }
    var known := ProfileIds(catalog.profiles);
    if exists id | id in manifest.supported :: id !in known { return Err(UnknownProfiles("manifest")); }
    if exists id | id in policy.allowed :: id !in known { return Err(UnknownProfiles("policy allowed")); }
    if exists id | id in policy.denied :: id !in known { return Err(UnknownProfiles("policy denied")); }
    r := Ok(time.utc);
  }

  // Solver sessions.

  function Encoded(profiles: seq<Profile>, ctx: Context): seq<Assertion> {
    CanonicalCategories();
    assert forall k :: 0 <= k < |CANONICAL| ==> CANONICAL[k] in CANONICAL;
    seq(|CANONICAL|, k requires 0 <= k < |CANONICAL| && CANONICAL[k] != ResourceBound =>
      Implied(CANONICAL[k], ConstraintFor(profiles, ctx, CANONICAL[k])))
  }

  /** What the assumed categories and the unconditional assertions mean. */
  lemma SessionMeaning(profiles: seq<Profile>, ctx: Context, extra: seq<Assertion>, assumed: seq<Category>, x: int)
    requires forall c :: c in assumed ==> c != ResourceBound
    requires forall k :: 0 <= k < |extra| ==> extra[k].Plain?
    ensures Satisfies(Encoded(profiles, ctx) + extra, AsSet(assumed), x) <==>
              && (forall c :: c in assumed ==> 0 <= x < |profiles| && Meets(ctx, profiles[x], c))
              && (forall k :: 0 <= k < |extra| ==> extra[k].e.Eval(x))
  {
    CanonicalCategories();
    var encoded := Encoded(profiles, ctx);
    var all := encoded + extra;
    forall c: Category | c != ResourceBound
      ensures ConstraintFor(profiles, ctx, c).Eval(x) <==> 0 <= x < |profiles| && Meets(ctx, profiles[x], c)
    {
      EncodingMeansMeets(profiles, ctx, c, x);
    }
    if Satisfies(all, AsSet(assumed), x) {
      forall c | c in assumed ensures ConstraintFor(profiles, ctx, c).Eval(x) {
        assert c in CANONICAL;
        assert all[c.Order()] == encoded[c.Order()];
        assert CANONICAL[c.Order()] == c;
      }
      forall k | 0 <= k < |extra| ensures extra[k].e.Eval(x) {
        assert all[|encoded| + k] == extra[k];
      }
    }
  }

  method NewSession(profiles: seq<Profile>, ctx: Context) returns (s: Solver)
    ensures fresh(s) && s.assertions == Encoded(profiles, ctx)
  {
    s := new Solver();
    var encoded := Encoded(profiles, ctx);
    for k := 0 to |encoded|
      invariant fresh(s) && s.assertions == encoded[..k]
    {
      s.Add(encoded[k]);
      assert encoded[..k+1] == encoded[..k] + [encoded[k]];
    }
    assert encoded[..|encoded|] == encoded;
  }

  ghost predicate SafeIndex(profiles: seq<Profile>, ctx: Context, x: int) {
    0 <= x < |profiles| && Safe(ctx, profiles[x])
  }

  function Blocking(found: seq<int>): seq<Assertion> {
    seq(|found|, k requires 0 <= k < |found| => Plain(IndexIsNot(found[k])))
  }

  lemma SessionFindsSafe(profiles: seq<Profile>, ctx: Context, found: seq<int>, x: int)
    ensures Satisfies(Encoded(profiles, ctx) + Blocking(found), AsSet(CANONICAL), x) <==>
              SafeIndex(profiles, ctx, x) && x !in found
  {
    CanonicalCategories();
    SessionMeaning(profiles, ctx, Blocking(found), CANONICAL, x);
    assert forall k :: 0 <= k < |found| ==> (Blocking(found)[k].e.Eval(x) <==> x != found[k]);
    assert Capability in CANONICAL;
  }

  /** The enumeration ends with every safe index once, in whatever order the
      solver produced them. */
  method EnumerateSafe(profiles: seq<Profile>, ctx: Context, mayGiveUp: bool) returns (r: Result<seq<int>, CompileError>)
    ensures r.Err? ==> mayGiveUp && r.error == SolverGaveUp
    ensures r.Ok? ==> Distinct(r.value) && forall x :: x in r.value <==> SafeIndex(profiles, ctx, x)
  {
    var s := NewSession(profiles, ctx);
    var found: seq<int> := [];
    assert Encoded(profiles, ctx) + Blocking(found) == Encoded(profiles, ctx);
    while true
      invariant fresh(s) && s.assertions == Encoded(profiles, ctx) + Blocking(found)
      invariant Distinct(found) && forall x :: x in found ==> SafeIndex(profiles, ctx, x)
      decreases |profiles| - |found|
    {
      forall x ensures Satisfies(s.assertions, AsSet(CANONICAL), x) <==> SafeIndex(profiles, ctx, x) && x !in found {
        SessionFindsSafe(profiles, ctx, found, x);
      }
      var status := s.Check(CANONICAL, |profiles|, mayGiveUp);
      match status {
        case Unknown => return Err(SolverGaveUp);
        case Unsat =>
          assert forall x :: !Satisfies(s.assertions, AsSet(CANONICAL), x);
          return Ok(found);
        case Sat(index) =>
          assert forall k :: 0 <= k < |found| ==> found[k] in found;
          assert Blocking(found + [index]) == Blocking(found) + [Plain(IndexIsNot(index))];
          found := found + [index];
          s.Add(Plain(IndexIsNot(index)));
          Pigeonhole(found, |profiles|);
      }
    }
  }

  method CandidateStatus(profiles: seq<Profile>, ctx: Context, index: nat, mayGiveUp: bool) returns (r: Status)
    requires index < |profiles|
    ensures r.Unknown? ==> mayGiveUp
    ensures r.Sat? ==> Safe(ctx, profiles[index])
    ensures r.Unsat? ==> !Safe(ctx, profiles[index])
  {
    r := CheckAt(profiles, ctx, index, CANONICAL, mayGiveUp);
    CanonicalCategories();
    if r.Sat? {
      forall c: Category ensures Meets(ctx, profiles[index], c) {
        if c != ResourceBound { assert c in CANONICAL; }
      }
    }
  }

  /** Some of the categories are violated at a fixed index. */
  ghost predicate Conflict(ctx: Context, p: Profile, cs: seq<Category>) {
    exists c :: c in cs && !Meets(ctx, p, c)
  }

  method CheckAt(profiles: seq<Profile>, ctx: Context, index: nat, assumed: seq<Category>, mayGiveUp: bool) returns (r: Status)
    requires index < |profiles| && ResourceBound !in assumed
    ensures r.Unknown? ==> mayGiveUp
    ensures r.Sat? ==> !Conflict(ctx, profiles[index], assumed)
    ensures r.Unsat? ==> Conflict(ctx, profiles[index], assumed)
  {
    var s := NewSession(profiles, ctx);
    s.Add(Plain(IndexIs(index)));
    ghost var extra := [Plain(IndexIs(index))];
    forall x ensures Satisfies(s.assertions, AsSet(assumed), x) <==>
                       x == index && forall c :: c in assumed ==> Meets(ctx, profiles[index], c) {
      SessionMeaning(profiles, ctx, extra, assumed, x);
      assert extra[0].e.Eval(x) <==> x == index;
    }
    r := s.Check(assumed, |profiles|, mayGiveUp);
    if r.Unsat? { assert !Satisfies(s.assertions, AsSet(assumed), index); }
  }

  /** The deletion pass leaves exactly the last violated category. */
  method MinimizeCore(profiles: seq<Profile>, ctx: Context, index: nat, categories: seq<Category>, mayGiveUp: bool)
      returns (r: Result<seq<Category>, CompileError>)
    requires index < |profiles| && categories != [] && categories == Violated(ctx, profiles[index])
    ensures r.Err? ==> mayGiveUp && r.error == SolverGaveUp
    ensures r.Ok? ==> r.value == [categories[|categories|-1]]
  {
    var remaining := categories;
    ghost var j := 0;
    CanonicalCategories();
    ViolatedAmongIsOrdered(ctx, profiles[index], CANONICAL);
    assert categories[0..] == categories;
    for k := 0 to |CANONICAL|
      invariant 0 <= j < |categories| && remaining == categories[j..]
      invariant j < |categories| - 1 ==> categories[j].Order() >= k
    {
      var category := CANONICAL[k];
      if category !in remaining {
        DroppedOrLater(categories, j, k);
        continue;
      }
      var trial := Without(remaining, category);
      assert forall d :: d in trial ==> d in categories && d in CANONICAL;
      FirstOfRemaining(categories, j, k, category);
      if j < |categories| - 1 {
        assert trial[0] == categories[j+1] && trial[0] in categories;
        assert Conflict(ctx, profiles[index], trial);
      }
      var status := CheckAt(profiles, ctx, index, trial, mayGiveUp);
      if status.Unknown? {
        return Err(SolverGaveUp);
      }
      if status.Unsat? {
        remaining := trial;
        j := j + 1;
      }
    }
    var sorted := SortCategories(remaining);
    CanonicalBound(categories, j);
    SortedSingleton(sorted, remaining);
    r := Ok(sorted);
  }

  function Without(cs: seq<Category>, c: Category): (w: seq<Category>)
    ensures forall d :: d in w <==> d in cs && d != c
  {
    if cs == [] then [] else (if cs[0] != c then [cs[0]] else []) + Without(cs[1..], c)
  }

  lemma {:induction false} WithoutAbsent(cs: seq<Category>, c: Category)
    requires c !in cs
    ensures Without(cs, c) == cs
  {
    if cs != [] { WithoutAbsent(cs[1..], c); }
  }

  lemma DroppedOrLater(cs: seq<Category>, j: nat, k: nat)
    requires StrictlyOrdered(cs) && j < |cs| && k < |CANONICAL| && CANONICAL[k] !in cs[j..]
    requires j < |cs| - 1 ==> cs[j].Order() >= k
    ensures j < |cs| - 1 ==> cs[j].Order() >= k + 1
  {
    CanonicalCategories();
    assert cs[j..][0] == cs[j];
    assert cs[j] in cs[j..];
    if cs[j].Order() == CANONICAL[k].Order() {
      OrderIsInjective(cs[j], CANONICAL[k]);
    }
  }

  lemma FirstOfRemaining(cs: seq<Category>, j: nat, k: nat, c: Category)
    requires StrictlyOrdered(cs) && j < |cs| && k < |CANONICAL| && c == CANONICAL[k] && c in cs[j..]
    requires j < |cs| - 1 ==> cs[j].Order() >= k
    ensures c == cs[j] && Without(cs[j..], c) == cs[j+1..]
    ensures j + 1 < |cs| ==> cs[j+1].Order() >= k + 1
  {
    CanonicalCategories();
    var i :| 0 <= i < |cs[j..]| && cs[j..][i] == c;
    assert cs[j..][0] == cs[j] && cs[j..][1..] == cs[j+1..];
    assert forall m :: j < m < |cs| ==> cs[j].Order() < cs[m].Order();
    assert cs[j+i] == c;
    var tail := cs[j+1..];
    forall m | 0 <= m < |tail| ensures tail[m] != c { assert tail[m] == cs[j+1+m]; }
    WithoutAbsent(cs[j+1..], c);
  }

  lemma CanonicalBound(cs: seq<Category>, j: nat)
    requires j < |cs| && (j < |cs| - 1 ==> cs[j].Order() >= |CANONICAL|) && forall c :: c in cs ==> c in CANONICAL
    ensures j == |cs| - 1
  {
    CanonicalCategories();
    assert cs[j] in cs;
    var i :| 0 <= i < |CANONICAL| && CANONICAL[i] == cs[j];
  }

  lemma TwoDistinct(cs: seq<Category>, c: Category)
    requires Distinct(cs) && |cs| > 1
    ensures exists k :: 0 <= k < |cs| && cs[k] != c
  {
    assert cs[0] != cs[1];
  }

  lemma AllEqualDistinct(cs: seq<Category>, c: Category)
    requires Distinct(cs) && forall k :: 0 <= k < |cs| ==> cs[k] == c
    ensures |cs| <= 1
  {
    if |cs| > 1 { TwoDistinct(cs, c); }
  }

  lemma SortedSingleton(sorted: seq<Category>, one: seq<Category>)
    requires |one| == 1 && Distinct(sorted) && forall c :: c in sorted <==> c in one
    ensures sorted == one
  {
    NonemptyHasMember(sorted);
    assert one[0] in one && one[0] in sorted;
    forall k | 0 <= k < |sorted| ensures sorted[k] == one[0] { assert sorted[k] in sorted; }
    AllEqualDistinct(sorted, one[0]);
  }

  /** Violated, and no longer so once any member is dropped. */
  ghost predicate IrreducibleConflict(ctx: Context, p: Profile, core: seq<Category>) {
    Conflict(ctx, p, core) && forall c :: c in core ==> !Conflict(ctx, p, Without(core, c))
  }

  /** At a fixed profile an irreducible conflict has exactly one category, and
      every violated category alone is one. */
  lemma IrreducibleConflictsAreSingle(ctx: Context, p: Profile, core: seq<Category>)
    requires Distinct(core)
    ensures IrreducibleConflict(ctx, p, core) <==> |core| == 1 && !Meets(ctx, p, core[0])
  {
    if |core| == 1 && !Meets(ctx, p, core[0]) {
      assert core[0] in core;
      assert forall c :: c in core ==> forall d :: d !in Without(core, c);
    }
    if IrreducibleConflict(ctx, p, core) {
      OnlyOneMember(ctx, p, core);
    }
  }

  lemma OnlyOneMember(ctx: Context, p: Profile, core: seq<Category>)
    requires Distinct(core) && IrreducibleConflict(ctx, p, core)
    ensures |core| == 1 && !Meets(ctx, p, core[0])
  {
    var c :| c in core && !Meets(ctx, p, c);
    forall k | 0 <= k < |core| ensures core[k] == c {
      assert core[k] in core;
      assert c in Without(core, core[k]) <==> c != core[k];
    }
    AllEqualDistinct(core, c);
  }

  // Compilation.

  ghost function DecisionFor(ctx: Context, p: Profile): Decision {
    var v := Violated(ctx, p);
    Decision(p.profileId, v == [], v, if v == [] then [] else [v[|v|-1]])
  }

  /** Positions of the safe profiles among the first `upTo`. */
  ghost function SafeIndexes(profiles: seq<Profile>, ctx: Context, upTo: nat): (s: seq<int>)
    requires upTo <= |profiles|
    ensures forall x :: x in s <==> x < upTo && SafeIndex(profiles, ctx, x)
    ensures forall i :: 0 <= i < |s| ==> 0 <= s[i] < upTo
    ensures forall i, j :: 0 <= i < j < |s| ==> s[i] < s[j]
  {
    if upTo == 0 then []
    else
      var before := SafeIndexes(profiles, ctx, upTo - 1);
      assert forall i :: 0 <= i < |before| ==> before[i] in before;
      before + if SafeIndex(profiles, ctx, upTo - 1) then [upTo-1] else []
  }

  lemma EnumerationMatches(profiles: seq<Profile>, ctx: Context, found: seq<int>)
    requires Distinct(found) && forall x :: x in found <==> SafeIndex(profiles, ctx, x)
    ensures SortBy(found, IntLe) == SafeIndexes(profiles, ctx, |profiles|)
  {
    var safe := SafeIndexes(profiles, ctx, |profiles|);
    NumericOrders();
    SortSorted(found, IntLe);
    SortPermutes(found, IntLe);
    DistinctIffMultiplicity(found);
    DistinctIffMultiplicity(safe);
    forall x ensures multiset(found)[x] == multiset(safe)[x] {
      assert x in found <==> x in multiset(found);
      assert x in safe <==> x in multiset(safe);
      assert multiset(found)[x] <= 1 && multiset(safe)[x] <= 1;
    }
    assert multiset(found) == multiset(safe);
    SortedUnique(SortBy(found, IntLe), safe, IntLe);
  }

  method DecideProfile(profiles: seq<Profile>, ctx: Context, index: nat, mayGiveUp: bool) returns (r: Result<Decision, CompileError>)
    requires index < |profiles|
    ensures r.Err? ==> mayGiveUp && r.error == SolverGaveUp
    ensures r.Ok? ==> r.value == DecisionFor(ctx, profiles[index])
  {
    var profile := profiles[index];
    var status := CandidateStatus(profiles, ctx, index, mayGiveUp);
    NothingViolatedIffSafe(ctx, profile);
    match status {
      case Unknown => return Err(SolverGaveUp);
      case Sat(_) => return Ok(Decision(profile.profileId, true, [], []));
      case Unsat =>
        var violated := ProfileViolatedCategories(ctx, profile);
        if violated == [] {
          return Err(UnsatWithoutViolation(profile.profileId));
        }
        var core := MinimizeCore(profiles, ctx, index, violated, mayGiveUp);
        if core.Err? {
          return Err(core.error);
        }
        return Ok(Decision(profile.profileId, false, violated, core.value));
    }
  }

  ghost function Decides(ctx: Context): Profile -> Decision {
    (profile: Profile) => DecisionFor(ctx, profile)
  }

  ghost predicate Follows<T, U>(outputs: seq<U>, inputs: seq<T>, f: T -> U) {
    |outputs| <= |inputs| && forall i :: 0 <= i < |outputs| ==> outputs[i] == f(inputs[i])
  }

  lemma FollowsMore<T, U>(outputs: seq<U>, inputs: seq<T>, f: T -> U, next: U)
    requires Follows(outputs, inputs, f) && |outputs| < |inputs| && next == f(inputs[|outputs|])
    ensures Follows(outputs + [next], inputs, f)
  {
  }

  /** The decisions on the first profiles, and which of them are safe. */
  ghost predicate DecidedSoFar(profiles: seq<Profile>, ctx: Context, decisions: seq<Decision>, accepted: seq<int>) {
    Follows(decisions, profiles, Decides(ctx)) && accepted == SafeIndexes(profiles, ctx, |decisions|)
  }

  lemma OneMoreSafe(profiles: seq<Profile>, ctx: Context, n: nat)
    requires n < |profiles|
    ensures SafeIndexes(profiles, ctx, n + 1)
         == SafeIndexes(profiles, ctx, n) + if DecisionFor(ctx, profiles[n]).accepted then [n] else []
  {
    NothingViolatedIffSafe(ctx, profiles[n]);
  }

  /** One round of the loop over the profiles. */
  method DecideNext(profiles: seq<Profile>, ctx: Context, decisions: seq<Decision>, accepted: seq<int>, mayGiveUp: bool)
      returns (r: Result<seq<Decision>, CompileError>, nowAccepted: seq<int>)
    requires DecidedSoFar(profiles, ctx, decisions, accepted) && |decisions| < |profiles|
    ensures r.Err? ==> mayGiveUp && r.error == SolverGaveUp
    ensures r.Ok? ==> |r.value| == |decisions| + 1 && DecidedSoFar(profiles, ctx, r.value, nowAccepted)
  {
    nowAccepted := accepted;
    var decision := DecideProfile(profiles, ctx, |decisions|, mayGiveUp);
    if decision.Err? {
      return Err(decision.error), accepted;
    }
    if decision.value.accepted {
      nowAccepted := accepted + [|decisions|];
    }
    OneMoreSafe(profiles, ctx, |decisions|);
    FollowsMore(decisions, profiles, Decides(ctx), decision.value);
    r := Ok(decisions + [decision.value]);
  }

  /** One decision per profile, and the positions accepted. */
  method DecideAll(profiles: seq<Profile>, ctx: Context, mayGiveUp: bool) returns (r: Result<seq<Decision>, CompileError>, accepted: seq<int>)
    ensures r.Err? ==> mayGiveUp && r.error == SolverGaveUp
    ensures r.Ok? ==> accepted == SafeIndexes(profiles, ctx, |profiles|)
    ensures r.Ok? ==> DecisionsMatch(profiles, ctx, r.value)
  {
    var decisions: seq<Decision> := [];
    accepted := [];
    for index := 0 to |profiles|
      invariant |decisions| == index && DecidedSoFar(profiles, ctx, decisions, accepted)
    {
      r, accepted := DecideNext(profiles, ctx, decisions, accepted, mayGiveUp);
      if r.Err? {
        return;
      }
      decisions := r.value;
    }
    FollowingMatches(profiles, ctx, decisions);
    r := Ok(decisions);
  }

  lemma FollowingMatches(profiles: seq<Profile>, ctx: Context, decisions: seq<Decision>)
    requires Follows(decisions, profiles, Decides(ctx)) && |decisions| == |profiles|
    ensures DecisionsMatch(profiles, ctx, decisions)
  {
  }

  ghost predicate DecisionsMatch(profiles: seq<Profile>, ctx: Context, decisions: seq<Decision>) {
    |decisions| == |profiles| && forall i :: 0 <= i < |profiles| ==> decisions[i] == DecisionFor(ctx, profiles[i])
  }

  /** The identifiers of the safe profiles, in catalogue order. */
  ghost function SafeIds(profiles: seq<Profile>, ctx: Context): seq<string> {
    IdsAt(profiles, SafeIndexes(profiles, ctx, |profiles|))
  }

  function IdsAt(profiles: seq<Profile>, indexes: seq<int>): seq<string>
    requires forall k :: 0 <= k < |indexes| ==> 0 <= indexes[k] < |profiles|
  {
    seq(|indexes|, k requires 0 <= k < |indexes| => profiles[indexes[k]].profileId)
  }

  /** Compilation accepts exactly the profiles that violate nothing. On valid
      inputs the only failure is a solver that gives up. */
  method CompileLocalPolicy(catalog: Catalog, manifest: Manifest, policy: Policy, task: Task, time: Time, mayGiveUp: bool)
      returns (r: Result<Compilation, CompileError>)
    ensures ValidInputs(catalog, manifest, policy, time) && !mayGiveUp ==> r.Ok?
    ensures ValidInputs(catalog, manifest, policy, time) && r.Err? ==> r.error == SolverGaveUp
    ensures !ValidInputs(catalog, manifest, policy, time) ==> r.Err?
    ensures r.Ok? ==>
              && LeastRequirement(policy.baseRequirement, policy.rules, task, r.value.derivation.requirement)
              && var ctx := Context(manifest.supported, policy, task, r.value.derivation.requirement);
                 r.value.safeProfileIds == SafeIds(catalog.profiles, ctx)
                 && DecisionsMatch(catalog.profiles, ctx, r.value.decisions)
  {
    var validated := ValidateCompilationInputs(catalog, manifest, policy, time);
    if validated.Err? {
      return Err(validated.error);
    }
    var derivation := DeriveRequirement(policy.baseRequirement, policy.rules, task);
    var ctx := Context(manifest.supported, policy, task, derivation.requirement);
    var enumerated := EnumerateSafe(catalog.profiles, ctx, mayGiveUp);
    if enumerated.Err? {
      return Err(enumerated.error);
    }
    var decided, accepted := DecideAll(catalog.profiles, ctx, mayGiveUp);
    if decided.Err? {
      return Err(decided.error);
    }
    EnumerationMatches(catalog.profiles, ctx, enumerated.value);
    if SortBy(enumerated.value, IntLe) != accepted {
      return Err(EnumerationDiffers);
    }
    r := Ok(Compilation(derivation, IdsAt(catalog.profiles, accepted), decided.value));
  }

  // What safety gives.

  /** A safe profile's assurance dominates the derived requirement. */
  lemma SafeDominatesRequirement(ctx: Context, p: Profile)
    requires p.Consistent() && Safe(ctx, p)
    ensures Dominates(p.assurance, ctx.requirement)
  {
    assert Meets(ctx, p, KemAssurance) && Meets(ctx, p, EndpointAuthentication) && Meets(ctx, p, ContractEvidence)
        && Meets(ctx, p, Fallback) && Meets(ctx, p, Resumption) && Meets(ctx, p, Lease);
  }

  /** Raising a task never adds a safe profile. */
  lemma SafeSetIsAntitone(supported: seq<string>, policy: Policy, low: Task, high: Task,
                          lowRequirement: AssuranceVector, highRequirement: AssuranceVector, p: Profile)
    requires TaskLe(low, high)
    requires LeastRequirement(policy.baseRequirement, policy.rules, low, lowRequirement)
    requires LeastRequirement(policy.baseRequirement, policy.rules, high, highRequirement)
    requires Safe(Context(supported, policy, high, highRequirement), p)
    ensures Safe(Context(supported, policy, low, lowRequirement), p)
  {
    RequirementIsMonotone(policy.baseRequirement, policy.rules, low, high, lowRequirement, highRequirement);
    var below, above := Context(supported, policy, low, lowRequirement), Context(supported, policy, high, highRequirement);
    forall c: Category ensures Meets(below, p, c) {
      assert Meets(above, p, c);
    }
  }
}
