/** Named negotiation constraints, their finite-domain encoding, and the solver
    that decides it (negotiation/conflict_constraints.py). */
module ConflictConstraints {
  import opened Wrappers
  import opened Sorting

  datatype NamedConstraint = NamedConstraint(
    constraintId: string,
    agentId: string,
    category: string,
    profileScope: seq<string>,
    negotiable: bool)

  datatype ConflictError = DuplicateConstraint(id: string) | SatisfiableModel

  // What a set of constraints means, independently of any encoding.

  /** The profile at position `x` lies in the scope of every constraint. */
  ghost predicate Allows(profileIds: seq<string>, cs: seq<NamedConstraint>, x: int) {
    0 <= x < |profileIds| && forall c :: c in cs ==> profileIds[x] in c.profileScope
  }

  ghost predicate Satisfiable(profileIds: seq<string>, cs: seq<NamedConstraint>) {
    exists x :: Allows(profileIds, cs, x)
  }

  lemma FewerConstraintsStaySatisfiable(profileIds: seq<string>, more: seq<NamedConstraint>, fewer: seq<NamedConstraint>)
    requires Satisfiable(profileIds, more) && forall c :: c in fewer ==> c in more
    ensures Satisfiable(profileIds, fewer)
  {
    var x :| Allows(profileIds, more, x);
    assert Allows(profileIds, fewer, x);
  }

  // Identifiers.

  function Ids(cs: seq<NamedConstraint>): (ids: seq<string>)
    ensures |ids| == |cs| && forall i :: 0 <= i < |cs| ==> ids[i] == cs[i].constraintId
  {
    seq(|cs|, i requires 0 <= i < |cs| => cs[i].constraintId)
  }

  ghost predicate DistinctIds(cs: seq<NamedConstraint>) {
    Distinct(Ids(cs))
  }

  function WithoutId(cs: seq<NamedConstraint>, id: string): seq<NamedConstraint> {
    if cs == [] then []
    else (if cs[0].constraintId != id then [cs[0]] else []) + WithoutId(cs[1..], id)
  }

  function RemoveAt<T>(s: seq<T>, i: nat): seq<T>
    requires i < |s|
  {
    s[..i] + s[i+1..]
  }

  lemma {:induction false} WithoutAbsentId(cs: seq<NamedConstraint>, id: string)
    requires forall k :: 0 <= k < |cs| ==> cs[k].constraintId != id
    ensures WithoutId(cs, id) == cs
  {
    if cs != [] { WithoutAbsentId(cs[1..], id); }
  }

  lemma {:induction false} WithoutIdOfOne(cs: seq<NamedConstraint>, i: nat, id: string)
    requires i < |cs| && forall k :: 0 <= k < |cs| ==> (cs[k].constraintId == id <==> k == i)
    ensures WithoutId(cs, id) == RemoveAt(cs, i)
  {
    if i == 0 {
      WithoutAbsentId(cs[1..], id);
    } else {
      WithoutIdOfOne(cs[1..], i - 1, id);
      assert RemoveAt(cs, i) == [cs[0]] + RemoveAt(cs[1..], i - 1);
    }
  }

  lemma RemovedIdsStayDistinct(cs: seq<NamedConstraint>, i: nat)
    requires DistinctIds(cs) && i < |cs|
    ensures DistinctIds(RemoveAt(cs, i))
  {
    var all, rest := Ids(cs), Ids(RemoveAt(cs, i));
    forall k | 0 <= k < |rest| ensures rest[k] == all[if k < i then k else k + 1] {}
  }

  lemma WithoutIdIsRemoveAt(cs: seq<NamedConstraint>, i: nat)
    requires DistinctIds(cs) && i < |cs|
    ensures WithoutId(cs, cs[i].constraintId) == RemoveAt(cs, i)
    ensures DistinctIds(RemoveAt(cs, i))
  {
    RemovedIdsStayDistinct(cs, i);
    forall k | 0 <= k < |cs| ensures cs[k].constraintId == cs[i].constraintId <==> k == i {
      assert Ids(cs)[k] == cs[k].constraintId && Ids(cs)[i] == cs[i].constraintId;
    }
    WithoutIdOfOne(cs, i, cs[i].constraintId);
  }

  // The encoding.

  /** `BoolVal(False)`, or the disjunction of `selected == index`. */
  datatype ScopeExpression = Never | OneOf(indexes: seq<nat>) {
    predicate Eval(selected: int) {
      OneOf? && selected in indexes
    }
  }

  datatype FeasibilityModel = FeasibilityModel(
    profileIds: seq<string>,
    constraints: seq<NamedConstraint>,
    expressions: map<string, ScopeExpression>)

  method ScopeToExpression(profileIds: seq<string>, scope: seq<string>) returns (e: ScopeExpression)
    ensures forall x :: e.Eval(x) <==> 0 <= x < |profileIds| && profileIds[x] in scope
  {
    var allowed: seq<nat> := [];
    for index := 0 to |profileIds|
      invariant forall x :: x in allowed <==> 0 <= x < index && profileIds[x] in scope
    {
      if profileIds[index] in scope {
        allowed := allowed + [index];
      }
    }
    e := if allowed == [] then Never else OneOf(allowed);
    assert allowed == [] ==> forall x :: 0 <= x < |profileIds| && profileIds[x] in scope ==> x in allowed;
  }

  ghost predicate Faithful(m: FeasibilityModel) {
    forall c :: c in m.constraints ==>
      && c.constraintId in m.expressions
      && forall x :: m.expressions[c.constraintId].Eval(x) <==>
                     0 <= x < |m.profileIds| && m.profileIds[x] in c.profileScope
  }

  method BuildFeasibilityModel(profileIds: seq<string>, constraints: seq<NamedConstraint>)
      returns (r: Result<FeasibilityModel, ConflictError>)
    ensures r.Ok? <==> DistinctIds(constraints)
    ensures r.Ok? ==> r.value.profileIds == profileIds && r.value.constraints == constraints && Faithful(r.value)
    ensures r.Err? ==> exists i, j :: 0 <= i < j < |constraints| && DistinctIds(constraints[..j])
                         && constraints[i].constraintId == constraints[j].constraintId
                         && r.error == DuplicateConstraint(constraints[j].constraintId)
  {
    var expressions: map<string, ScopeExpression> := map[];
    var seen: set<string> := {};
    for n := 0 to |constraints|
      invariant DistinctIds(constraints[..n])
      invariant forall id :: id in seen <==> exists i :: 0 <= i < n && constraints[i].constraintId == id
      invariant expressions.Keys == seen
      invariant Faithful(FeasibilityModel(profileIds, constraints[..n], expressions))
    {
      var c := constraints[n];
      if c.constraintId in seen {
        var i :| 0 <= i < n && constraints[i].constraintId == c.constraintId;
        assert Ids(constraints)[i] == Ids(constraints)[n];
        return Err(DuplicateConstraint(c.constraintId));
      }
      seen := seen + {c.constraintId};
      var e := ScopeToExpression(profileIds, c.profileScope);
      ghost var before := FeasibilityModel(profileIds, constraints[..n], expressions);
      expressions := expressions[c.constraintId := e];
      assert constraints[..n+1] == constraints[..n] + [c];
      assert Ids(constraints[..n+1]) == Ids(constraints[..n]) + [c.constraintId];
    }
    assert constraints[..|constraints|] == constraints;
    r := Ok(FeasibilityModel(profileIds, constraints, expressions));
  }

  // The solver.

  datatype Assertion = Assertion(tag: string, expression: ScopeExpression)

  /** A solver loaded with `0 <= selected < size` and labelled assertions. */
  datatype LoadedSolver = LoadedSolver(size: nat, assertions: seq<Assertion>, tracked: bool) {
    /** `selected` satisfies every assertion whose label is in `labels`. */
    predicate HoldsFor(selected: int, labels: set<string>) {
      0 <= selected < size && forall a | a in assertions && a.tag in labels :: a.expression.Eval(selected)
    }

    function Labels(): set<string> {
      set a | a in assertions :: a.tag
    }
  }

  datatype Answer = Sat(selected: int) | Unsat(core: set<string>) | Unknown

  method SolverForConstraints(m: FeasibilityModel, tracked: bool) returns (s: LoadedSolver)
    requires Faithful(m)
    ensures s.size == |m.profileIds| && s.tracked == tracked
    ensures |s.assertions| == |m.constraints|
    ensures forall i :: 0 <= i < |m.constraints| ==>
              s.assertions[i] == Assertion(m.constraints[i].constraintId, m.expressions[m.constraints[i].constraintId])
  {
    var assertions: seq<Assertion> := [];
    for i := 0 to |m.constraints|
      invariant |assertions| == i
      invariant forall k :: 0 <= k < i ==>
                  assertions[k] == Assertion(m.constraints[k].constraintId, m.expressions[m.constraints[k].constraintId])
    {
      var id := m.constraints[i].constraintId;
      assertions := assertions + [Assertion(id, m.expressions[id])];
    }
    s := LoadedSolver(|m.profileIds|, assertions, tracked);
  }

  /** The solver as an oracle: any satisfying index, or any label set that is
      already contradictory, or (when it may give up) no answer. */
  method Check(s: LoadedSolver, mayGiveUp: bool) returns (r: Answer)
    ensures r.Sat? ==> s.HoldsFor(r.selected, s.Labels())
    ensures r.Unsat? ==> forall x :: !s.HoldsFor(x, s.Labels())
    ensures r.Unsat? && s.tracked ==> r.core <= s.Labels() && forall x :: !s.HoldsFor(x, r.core)
    ensures r.Unknown? ==> mayGiveUp
  {
    if mayGiveUp {
      if * {
        return Unknown;
      }
    }
    if x :| 0 <= x < s.size && s.HoldsFor(x, s.Labels()) {
      return Sat(x);
    }
    if !s.tracked {
      return Unsat({});
    }
    assert forall x | 0 <= x < s.size :: !s.HoldsFor(x, s.Labels());
    var core: set<string> :| core <= s.Labels() && forall x | 0 <= x < s.size :: !s.HoldsFor(x, core);
    return Unsat(core);
  }

  /** Assertions of a faithful model hold exactly where the labelled constraints allow. */
  lemma SolverMeansConstraints(m: FeasibilityModel, s: LoadedSolver, labels: set<string>, cs: seq<NamedConstraint>)
    requires Faithful(m) && s.size == |m.profileIds| && |s.assertions| == |m.constraints|
    requires forall i :: 0 <= i < |m.constraints| ==>
               s.assertions[i] == Assertion(m.constraints[i].constraintId, m.expressions[m.constraints[i].constraintId])
    requires forall c :: c in cs <==> c in m.constraints && c.constraintId in labels
    ensures (exists x :: s.HoldsFor(x, labels)) <==> Satisfiable(m.profileIds, cs)
  {
    forall x ensures s.HoldsFor(x, labels) <==> Allows(m.profileIds, cs, x) {
      if s.HoldsFor(x, labels) {
        forall c | c in cs ensures m.profileIds[x] in c.profileScope {
          var i :| 0 <= i < |m.constraints| && m.constraints[i] == c;
          assert s.assertions[i] in s.assertions;
        }
      }
      if Allows(m.profileIds, cs, x) {
        forall a | a in s.assertions && a.tag in labels ensures a.expression.Eval(x) {
          var i :| 0 <= i < |s.assertions| && s.assertions[i] == a;
          assert m.constraints[i] in cs;
        }
      }
    }
  }

  /** `solver_for_constraints(...).check()` on a model, decided by meaning. */
  method CheckModel(m: FeasibilityModel, tracked: bool, mayGiveUp: bool) returns (r: Answer)
    requires Faithful(m)
    ensures r.Sat? ==> Satisfiable(m.profileIds, m.constraints)
    ensures r.Unsat? ==> !Satisfiable(m.profileIds, m.constraints)
    ensures r.Unsat? && tracked ==>
              && (forall id :: id in r.core ==> id in Ids(m.constraints))
              && forall cs: seq<NamedConstraint> ::
                   (forall c :: c in cs <==> c in m.constraints && c.constraintId in r.core) ==> !Satisfiable(m.profileIds, cs)
    ensures r.Unknown? ==> mayGiveUp
  {
    var s := SolverForConstraints(m, tracked);
    r := Check(s, mayGiveUp);
    forall c | c in m.constraints ensures c.constraintId in s.Labels() {
      var i :| 0 <= i < |m.constraints| && m.constraints[i] == c;
      assert s.assertions[i] in s.assertions;
    }
    forall id | id in s.Labels() ensures id in Ids(m.constraints) {
      var i :| 0 <= i < |s.assertions| && s.assertions[i].tag == id;
      assert Ids(m.constraints)[i] == id;
    }
    SolverMeansConstraints(m, s, s.Labels(), m.constraints);
    if r.Unsat? && tracked {
      forall cs: seq<NamedConstraint> | forall c :: c in cs <==> c in m.constraints && c.constraintId in r.core
        ensures !Satisfiable(m.profileIds, cs)
      {
        SolverMeansConstraints(m, s, r.core, cs);
      }
    }
  }

  // Asking which profiles remain.

  /** The profiles that every constraint allows, in universe order. */
  ghost function AllowedProfiles(profileIds: seq<string>, cs: seq<NamedConstraint>, upTo: nat): seq<string>
    requires upTo <= |profileIds|
  {
    if upTo == 0 then []
    else AllowedProfiles(profileIds, cs, upTo - 1)
         + (if Allows(profileIds, cs, upTo - 1) then [profileIds[upTo - 1]] else [])
  }

  lemma {:induction false} AllowedProfilesMembers(profileIds: seq<string>, cs: seq<NamedConstraint>, upTo: nat)
    requires upTo <= |profileIds|
    ensures forall p :: p in AllowedProfiles(profileIds, cs, upTo) <==>
              exists k :: 0 <= k < upTo && profileIds[k] == p && Allows(profileIds, cs, k)
  {
    if upTo > 0 { AllowedProfilesMembers(profileIds, cs, upTo - 1); }
  }

  lemma SomeProfileIffSatisfiable(profileIds: seq<string>, cs: seq<NamedConstraint>)
    ensures AllowedProfiles(profileIds, cs, |profileIds|) != [] <==> Satisfiable(profileIds, cs)
  {
    var all := AllowedProfiles(profileIds, cs, |profileIds|);
    AllowedProfilesMembers(profileIds, cs, |profileIds|);
    if all != [] { assert all[0] in all; }
    if Satisfiable(profileIds, cs) {
      var x :| Allows(profileIds, cs, x);
      assert profileIds[x] in all;
    }
  }

  method SatisfiableProfileIds(profileIds: seq<string>, constraints: seq<NamedConstraint>, mayGiveUp: bool)
      returns (r: Result<seq<string>, ConflictError>)
    ensures r.Ok? <==> DistinctIds(constraints)
    ensures r.Ok? && !mayGiveUp ==> r.value == AllowedProfiles(profileIds, constraints, |profileIds|)
    ensures r.Ok? ==> forall p :: p in r.value ==> p in AllowedProfiles(profileIds, constraints, |profileIds|)
  {
    var built := BuildFeasibilityModel(profileIds, constraints);
    if built.Err? {
      return Err(built.error);
    }
    var m := built.value;
    var possible: seq<string> := [];
    AllowedProfilesMembers(profileIds, constraints, |profileIds|);
    for index := 0 to |profileIds|
      invariant !mayGiveUp ==> possible == AllowedProfiles(profileIds, constraints, index)
      invariant forall p :: p in possible ==> p in AllowedProfiles(profileIds, constraints, |profileIds|)
    {
      var s := SolverForConstraints(m, false);
      var pinned := s.(assertions := s.assertions + [Assertion("", OneOf([index]))]);
      var status := Check(pinned, mayGiveUp);
      PinnedMeansAllows(m, s, pinned, index);
      if status.Sat? {
        possible := possible + [profileIds[index]];
      }
    }
    r := Ok(possible);
  }

  lemma PinnedMeansAllows(m: FeasibilityModel, s: LoadedSolver, pinned: LoadedSolver, index: nat)
    requires Faithful(m) && s.size == |m.profileIds| && |s.assertions| == |m.constraints|
    requires forall i :: 0 <= i < |m.constraints| ==>
               s.assertions[i] == Assertion(m.constraints[i].constraintId, m.expressions[m.constraints[i].constraintId])
    requires pinned == s.(assertions := s.assertions + [Assertion("", OneOf([index]))])
    ensures (exists x :: pinned.HoldsFor(x, pinned.Labels())) <==> Allows(m.profileIds, m.constraints, index)
  {
    var extra := Assertion("", OneOf([index]));
    assert pinned.assertions[|s.assertions|] == extra;
    assert extra in pinned.assertions;
    if x :| pinned.HoldsFor(x, pinned.Labels()) {
      assert extra.expression.Eval(x);
      assert x == index;
      forall c | c in m.constraints ensures m.profileIds[index] in c.profileScope {
        var i :| 0 <= i < |m.constraints| && m.constraints[i] == c;
        assert pinned.assertions[i] == s.assertions[i];
      }
    }
    if Allows(m.profileIds, m.constraints, index) {
      forall a | a in pinned.assertions ensures a.expression.Eval(index) {
        var i :| 0 <= i < |pinned.assertions| && pinned.assertions[i] == a;
        if i < |s.assertions| { assert m.constraints[i] in m.constraints; }
      }
      assert pinned.HoldsFor(index, pinned.Labels());
    }
  }
}
