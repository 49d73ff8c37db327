/** Non-binding remediation reports (negotiation/remediation.py). */
module Remediation {
  import opened Wrappers
  import opened Sorting
  import opened ConflictConstraints
  import opened UnsatCore

  const NON_RELAXABLE_CATEGORIES: set<string> :=
    {"minimum_assurance", "endpoint_authentication", "explicit_profile_denial", "fallback_policy"}

  datatype EvaluatedRelaxation = EvaluatedRelaxation(
    constraintId: string,
    negotiable: bool,
    feasibleIfRemoved: bool,
    newlyFeasibleProfiles: seq<string>)

  datatype RemediationReport = RemediationReport(
    evaluations: seq<EvaluatedRelaxation>,
    sufficient: seq<string>,
    noSafeRemediation: bool)

  predicate MayRelax(c: NamedConstraint) {
    c.negotiable && c.category !in NON_RELAXABLE_CATEGORIES
  }

  /** Identifiers of the constraints a report may propose to relax, in certificate order. */
  function Relaxable(cs: seq<NamedConstraint>): seq<string> {
    if cs == [] then []
    else Relaxable(cs[..|cs|-1]) + (if MayRelax(cs[|cs|-1]) then [cs[|cs|-1].constraintId] else [])
  }

  /** What the report says of one constraint. A solver that gives up can hide a profile that
      becomes feasible, but never invent one. */
  ghost predicate Evaluated(universe: seq<string>, conflict: seq<NamedConstraint>, i: nat, e: EvaluatedRelaxation,
                            mayGiveUp: bool)
    requires i < |conflict|
  {
    var allowed := AllowedProfiles(universe, RemoveAt(conflict, i), |universe|);
    && e.constraintId == conflict[i].constraintId
    && e.negotiable == conflict[i].negotiable
    && (!MayRelax(conflict[i]) ==> e.newlyFeasibleProfiles == [])
    && (forall p :: p in e.newlyFeasibleProfiles ==> p in allowed)
    && (MayRelax(conflict[i]) && !mayGiveUp ==> e.newlyFeasibleProfiles == allowed)
    && (e.feasibleIfRemoved <==> e.newlyFeasibleProfiles != [])
    && (e.feasibleIfRemoved ==> MayRelax(conflict[i]) && Satisfiable(universe, RemoveAt(conflict, i)))
    && (MayRelax(conflict[i]) && Satisfiable(universe, RemoveAt(conflict, i)) && !mayGiveUp ==> e.feasibleIfRemoved)
  }

  /** The constraints that an evaluation found sufficient alone, in order. */
  function Sufficient(evaluations: seq<EvaluatedRelaxation>): seq<string> {
    if evaluations == [] then []
    else
      var last := evaluations[|evaluations|-1];
      Sufficient(evaluations[..|evaluations|-1]) + (if last.feasibleIfRemoved then [last.constraintId] else [])
  }

  method EvaluateRelaxation(universe: seq<string>, conflict: seq<NamedConstraint>, i: nat, mayGiveUp: bool)
      returns (e: EvaluatedRelaxation)
    requires DistinctIds(conflict) && i < |conflict|
    ensures Evaluated(universe, conflict, i, e, mayGiveUp)
  {
    var c := conflict[i];
    var profiles: seq<string> := [];
    if MayRelax(c) {
      assert forall k :: 0 <= k < |conflict| && k != i ==> Ids(conflict)[k] != Ids(conflict)[i];
      WithoutIdIsRemoveAt(conflict, i);
      var remaining := SatisfiableProfileIds(universe, WithoutId(conflict, c.constraintId), mayGiveUp);
      profiles := remaining.value;
      SomeProfileIffSatisfiable(universe, RemoveAt(conflict, i));
      assert profiles != [] ==> profiles[0] in AllowedProfiles(universe, RemoveAt(conflict, i), |universe|);
    }
    e := EvaluatedRelaxation(c.constraintId, c.negotiable, profiles != [], profiles);
  }

  /** For the conflict of a certificate, every relaxation that may be tested is
      sufficient alone, so the sufficient list is the relaxable list unless the solver gave up. */
  method BuildRemediationReport(universe: seq<string>, conflict: seq<NamedConstraint>, mayGiveUp: bool)
      returns (report: RemediationReport)
    requires DistinctIds(conflict)
    ensures |report.evaluations| == |conflict|
    ensures forall i :: 0 <= i < |conflict| ==> Evaluated(universe, conflict, i, report.evaluations[i], mayGiveUp)
    ensures report.noSafeRemediation <==> report.sufficient == []
    ensures report.sufficient == Sufficient(report.evaluations)
    ensures forall i :: 0 <= i < |conflict| && conflict[i].constraintId in report.sufficient ==>
              MayRelax(conflict[i]) && Satisfiable(universe, RemoveAt(conflict, i))
    ensures !mayGiveUp ==>
              forall i :: 0 <= i < |conflict| && MayRelax(conflict[i]) && Satisfiable(universe, RemoveAt(conflict, i)) ==>
                conflict[i].constraintId in report.sufficient
    ensures IsIus(universe, conflict) && !mayGiveUp ==> report.sufficient == Relaxable(conflict)
  {
    var evaluations: seq<EvaluatedRelaxation> := [];
    var sufficient: seq<string> := [];
    for i := 0 to |conflict|
      invariant |evaluations| == i && sufficient == Sufficient(evaluations)
      invariant forall k :: 0 <= k < i ==> Evaluated(universe, conflict, k, evaluations[k], mayGiveUp)
    {
      var e := EvaluateRelaxation(universe, conflict, i, mayGiveUp);
      if e.feasibleIfRemoved {
        sufficient := sufficient + [e.constraintId];
      }
      assert (evaluations + [e])[..i] == evaluations;
      evaluations := evaluations + [e];
    }
    report := RemediationReport(evaluations, sufficient, sufficient == []);
    SufficientIsExact(universe, conflict, evaluations, mayGiveUp);
  }

  lemma {:induction false} SufficientMembers(conflict: seq<NamedConstraint>, evaluations: seq<EvaluatedRelaxation>,
                                             i: nat)
    requires DistinctIds(conflict) && |evaluations| <= |conflict| && i < |conflict|
    requires forall k :: 0 <= k < |evaluations| ==> evaluations[k].constraintId == conflict[k].constraintId
    ensures conflict[i].constraintId in Sufficient(evaluations) <==> i < |evaluations| && evaluations[i].feasibleIfRemoved
  {
    if evaluations != [] {
      var n := |evaluations| - 1;
      SufficientMembers(conflict, evaluations[..n], i);
      assert i != n ==> Ids(conflict)[i] != Ids(conflict)[n];
    }
  }

  lemma {:induction false} SufficientIsRelaxable(conflict: seq<NamedConstraint>, evaluations: seq<EvaluatedRelaxation>)
    requires |evaluations| == |conflict|
    requires forall k :: 0 <= k < |conflict| ==>
               && evaluations[k].constraintId == conflict[k].constraintId
               && (evaluations[k].feasibleIfRemoved <==> MayRelax(conflict[k]))
    ensures Sufficient(evaluations) == Relaxable(conflict)
  {
    if conflict != [] {
      SufficientIsRelaxable(conflict[..|conflict|-1], evaluations[..|conflict|-1]);
    }
  }

  lemma SufficientIsExact(universe: seq<string>, conflict: seq<NamedConstraint>,
                          evaluations: seq<EvaluatedRelaxation>, mayGiveUp: bool)
    requires DistinctIds(conflict) && |evaluations| == |conflict|
    requires forall k :: 0 <= k < |conflict| ==> Evaluated(universe, conflict, k, evaluations[k], mayGiveUp)
    ensures forall i :: 0 <= i < |conflict| ==>
              (conflict[i].constraintId in Sufficient(evaluations) <==> evaluations[i].feasibleIfRemoved)
    ensures IsIus(universe, conflict) && !mayGiveUp ==> Sufficient(evaluations) == Relaxable(conflict)
  {
    forall i | 0 <= i < |conflict|
      ensures conflict[i].constraintId in Sufficient(evaluations) <==> evaluations[i].feasibleIfRemoved
    {
      SufficientMembers(conflict, evaluations, i);
    }
    if IsIus(universe, conflict) && !mayGiveUp {
      forall k | 0 <= k < |conflict| ensures Satisfiable(universe, RemoveAt(conflict, k)) {}
      SufficientIsRelaxable(conflict, evaluations);
    }
  }

  /** Two relaxations of one certificate never free the same profile. */
  lemma RelaxationsFreeDisjointProfiles(universe: seq<string>, conflict: seq<NamedConstraint>, i: nat, j: nat, p: string)
    requires IsIus(universe, conflict) && Distinct(universe) && i < |conflict| && j < |conflict| && i != j
    requires p in AllowedProfiles(universe, RemoveAt(conflict, i), |universe|)
    ensures p !in AllowedProfiles(universe, RemoveAt(conflict, j), |universe|)
    ensures p !in conflict[i].profileScope
  {
    AllowedProfilesMembers(universe, RemoveAt(conflict, i), |universe|);
    AllowedProfilesMembers(universe, RemoveAt(conflict, j), |universe|);
    FreedProfilesAreDisjoint(universe, conflict, i, j);
    var k :| 0 <= k < |universe| && universe[k] == p && Allows(universe, RemoveAt(conflict, i), k);
    assert Freed(universe, conflict, i, k);
  }
}
