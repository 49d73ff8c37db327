/** Tasks, monotone rules and requirement derivation (models/task.py,
    models/policy.py, policy/mapper.py, policy/validation.py). */
module PolicyMapper {
  import opened Wrappers
  import opened Sorting
  import opened Assurance

  datatype Sensitivity = Public | Internal | Confidential | Restricted {
    function Rank(): nat {
      match this case Public => 0 case Internal => 1 case Confidential => 2 case Restricted => 3
    }
  }

  datatype Impact = Observation | BusinessAction | PhysicalControl {
    function Rank(): nat {
      match this case Observation => 0 case BusinessAction => 1 case PhysicalControl => 2
    }
  }

  datatype Horizon = ShortHorizon | MediumHorizon | LongHorizon {
    function Rank(): nat {
      match this case ShortHorizon => 0 case MediumHorizon => 1 case LongHorizon => 2
    }
  }

  datatype NetworkClass = StableCloud | EnterpriseWan | ConstrainedEdge

  datatype Task = Task(
    sensitivity: Sensitivity,
    impact: Impact,
    horizon: Horizon,
    delegationDepth: int,
    sessionSeconds: int,
    networkClass: NetworkClass,
    policyClass: string)

  datatype Condition = Condition(
    minSensitivity: Option<Sensitivity>,
    minImpact: Option<Impact>,
    minHorizon: Option<Horizon>,
    minDelegationDepth: Option<int>,
    minSessionSeconds: Option<int>,
    networkClasses: Option<seq<NetworkClass>>,
    policyClasses: Option<seq<string>>)
  {
    predicate Matches(task: Task) {
      && (minSensitivity.None? || task.sensitivity.Rank() >= minSensitivity.value.Rank())
      && (minImpact.None? || task.impact.Rank() >= minImpact.value.Rank())
      && (minHorizon.None? || task.horizon.Rank() >= minHorizon.value.Rank())
      && (minDelegationDepth.None? || task.delegationDepth >= minDelegationDepth.value)
      && (minSessionSeconds.None? || task.sessionSeconds >= minSessionSeconds.value)
      && (networkClasses.None? || task.networkClass in networkClasses.value)
      && (policyClasses.None? || task.policyClass in policyClasses.value)
    }
  }

  datatype Contribution = Contribution(
    keyEstablishment: Option<set<Threat>>,
    endpointAuthentication: Option<set<Threat>>,
    contractEvidence: Option<set<Threat>>,
    fallbackRule: Option<FallbackRule>,
    resumptionRule: Option<ResumptionRule>,
    leaseStrictness: Option<LeaseStrictness>)
  {
    /** Absent ranks default to those of the requirement being strengthened. */
    function ApplyTo(requirement: AssuranceVector): AssuranceVector {
      Join(requirement, AssuranceVector(
        if keyEstablishment.Some? then keyEstablishment.value else {},
        if endpointAuthentication.Some? then endpointAuthentication.value else {},
        if contractEvidence.Some? then contractEvidence.value else {},
        if fallbackRule.Some? then fallbackRule.value else requirement.fallbackRule,
        if resumptionRule.Some? then resumptionRule.value else requirement.resumptionRule,
        if leaseStrictness.Some? then leaseStrictness.value else requirement.leaseStrictness))
    }

    /** What the contribution demands of any requirement: every field it names. */
    ghost predicate MetBy(requirement: AssuranceVector) {
      && (keyEstablishment.Some? ==> requirement.keyEstablishment >= keyEstablishment.value)
      && (endpointAuthentication.Some? ==> requirement.endpointAuthentication >= endpointAuthentication.value)
      && (contractEvidence.Some? ==> requirement.contractEvidence >= contractEvidence.value)
      && (fallbackRule.Some? ==> requirement.fallbackRule.Rank() >= fallbackRule.value.Rank())
      && (resumptionRule.Some? ==> requirement.resumptionRule.Rank() >= resumptionRule.value.Rank())
      && (leaseStrictness.Some? ==> requirement.leaseStrictness.Rank() >= leaseStrictness.value.Rank())
    }
  }

  /** Applying a contribution gives the least requirement that keeps the old
      one and meets the contribution; it can only strengthen. */
  lemma ApplyIsLeastStrengthening(c: Contribution, r: AssuranceVector, u: AssuranceVector)
    ensures Dominates(u, c.ApplyTo(r)) <==> Dominates(u, r) && c.MetBy(u)
  {
  }

  datatype Rule = Rule(ruleId: string, condition: Condition, contribution: Contribution)

  predicate RuleLe(a: Rule, b: Rule) {
    StrLe(a.ruleId, b.ruleId)
  }

  datatype Derivation = Derivation(matched: seq<string>, requirement: AssuranceVector)

  /** The least requirement above the base that meets every matching rule. */
  ghost predicate LeastRequirement(base: AssuranceVector, rules: seq<Rule>, task: Task, r: AssuranceVector) {
    forall u :: Dominates(u, r) <==>
      Dominates(u, base) && forall rule :: rule in rules && rule.condition.Matches(task) ==> rule.contribution.MetBy(u)
  }

  /** Identifiers of the matching rules, in the order of the list. */
  function MatchedIds(rules: seq<Rule>, task: Task): seq<string> {
    if rules == [] then []
    else
      var last := rules[|rules|-1];
      MatchedIds(rules[..|rules|-1], task) + if last.condition.Matches(task) then [last.ruleId] else []
  }

  method DeriveRequirement(base: AssuranceVector, rules: seq<Rule>, task: Task) returns (d: Derivation)
    ensures LeastRequirement(base, rules, task, d.requirement)
    ensures d.matched == MatchedIds(SortBy(rules, RuleLe), task)
  {
    var sorted := SortBy(rules, RuleLe);
    SortMembers(rules, RuleLe);
    var requirement := base;
    var matched: seq<string> := [];
    for i := 0 to |sorted|
      invariant matched == MatchedIds(sorted[..i], task)
      invariant LeastRequirement(base, sorted[..i], task, requirement)
    {
      var rule := sorted[i];
      assert sorted[..i+1] == sorted[..i] + [rule] && sorted[..i+1][..i] == sorted[..i];
      if rule.condition.Matches(task) {
        matched := matched + [rule.ruleId];
        forall u ensures Dominates(u, rule.contribution.ApplyTo(requirement)) <==>
                         Dominates(u, requirement) && rule.contribution.MetBy(u) {
          ApplyIsLeastStrengthening(rule.contribution, requirement, u);
        }
        requirement := rule.contribution.ApplyTo(requirement);
      }
    }
    assert sorted[..|sorted|] == sorted;
    d := Derivation(matched, requirement);
  }

  /** The derived requirement does not depend on the order of the rules. */
  lemma RequirementIgnoresRuleOrder(base: AssuranceVector, rules: seq<Rule>, other: seq<Rule>, task: Task,
                                    r: AssuranceVector, s: AssuranceVector)
    requires forall rule :: rule in rules <==> rule in other
    requires LeastRequirement(base, rules, task, r) && LeastRequirement(base, other, task, s)
    ensures r == s
  {
    assert Dominates(r, r) && Dominates(s, s);
    DominanceAntisymmetric(r, s);
  }

  /** `high` asks at least as much as `low` and is of the same class. */
  predicate TaskLe(low: Task, high: Task) {
    && low.sensitivity.Rank() <= high.sensitivity.Rank()
    && low.impact.Rank() <= high.impact.Rank()
    && low.horizon.Rank() <= high.horizon.Rank()
    && low.delegationDepth <= high.delegationDepth
    && low.sessionSeconds <= high.sessionSeconds
    && low.networkClass == high.networkClass
    && low.policyClass == high.policyClass
  }

  /** Raising a task never weakens what is required of it. */
  lemma RequirementIsMonotone(base: AssuranceVector, rules: seq<Rule>, low: Task, high: Task,
                              r: AssuranceVector, s: AssuranceVector)
    requires TaskLe(low, high)
    requires LeastRequirement(base, rules, low, r) && LeastRequirement(base, rules, high, s)
    ensures Dominates(s, r)
  {
    assert Dominates(s, s);
    forall rule | rule in rules && rule.condition.Matches(low) ensures rule.condition.Matches(high) {
    }
  }

  // The grid check.

  const SENSITIVITIES := [Public, Internal, Confidential, Restricted]
  const IMPACTS := [Observation, BusinessAction, PhysicalControl]
  const HORIZONS := [ShortHorizon, MediumHorizon, LongHorizon]
  const NETWORKS := [StableCloud, EnterpriseWan, ConstrainedEdge]

  /** A point of the task grid, by positions; `seconds` is strictly increasing. */
  datatype GridPoint = GridPoint(s: nat, i: nat, h: nat, d: nat, t: nat)

  predicate OnGrid(p: GridPoint, seconds: seq<int>) {
    p.s < |SENSITIVITIES| && p.i < |IMPACTS| && p.h < |HORIZONS| && p.d <= 8 && p.t < |seconds|
  }

  function TaskAt(p: GridPoint, seconds: seq<int>, network: NetworkClass, org: string): Task
    requires OnGrid(p, seconds)
  {
    Task(SENSITIVITIES[p.s], IMPACTS[p.i], HORIZONS[p.h], p.d, seconds[p.t], network, org)
  }

  /** The tasks one step above a grid point, one dimension at a time. */
  function Neighbors(p: GridPoint, seconds: seq<int>, network: NetworkClass, org: string): seq<Task>
    requires OnGrid(p, seconds)
  {
    (if p.s + 1 < |SENSITIVITIES| then [TaskAt(p.(s := p.s + 1), seconds, network, org)] else [])
    + (if p.i + 1 < |IMPACTS| then [TaskAt(p.(i := p.i + 1), seconds, network, org)] else [])
    + (if p.h + 1 < |HORIZONS| then [TaskAt(p.(h := p.h + 1), seconds, network, org)] else [])
    + (if p.d < 8 then [TaskAt(p.(d := p.d + 1), seconds, network, org)] else [])
    + (if p.t + 1 < |seconds| then [TaskAt(p.(t := p.t + 1), seconds, network, org)] else [])
  }

  ghost predicate StrictlyIncreasing(s: seq<int>) {
    forall i, j :: 0 <= i < j < |s| ==> s[i] < s[j]
  }

  lemma NeighborsAreAbove(p: GridPoint, seconds: seq<int>, network: NetworkClass, org: string, high: Task)
    requires OnGrid(p, seconds) && StrictlyIncreasing(seconds)
    requires high in Neighbors(p, seconds, network, org)
    ensures TaskLe(TaskAt(p, seconds, network, org), high)
  {
    assert forall k :: 0 <= k < 4 ==> SENSITIVITIES[k].Rank() == k;
    assert forall k :: 0 <= k < 3 ==> IMPACTS[k].Rank() == k && HORIZONS[k].Rank() == k;
  }

  method CheckPoint(base: AssuranceVector, rules: seq<Rule>, p: GridPoint, seconds: seq<int>, network: NetworkClass, org: string)
      returns (passed: bool)
    requires OnGrid(p, seconds) && StrictlyIncreasing(seconds)
    ensures passed
  {
    var low := TaskAt(p, seconds, network, org);
    var lowRequirement := DeriveRequirement(base, rules, low);
    var neighbors := Neighbors(p, seconds, network, org);
    for k := 0 to |neighbors| {
      var highRequirement := DeriveRequirement(base, rules, neighbors[k]);
      NeighborsAreAbove(p, seconds, network, org, neighbors[k]);
      RequirementIsMonotone(base, rules, low, neighbors[k], lowRequirement.requirement, highRequirement.requirement);
      if !Dominates(highRequirement.requirement, lowRequirement.requirement) {
        return false;
      }
    }
    passed := true;
  }

  /** The session lengths of the grid: around every threshold of the policy. */
  method SessionValues(rules: seq<Rule>) returns (seconds: seq<int>)
    ensures StrictlyIncreasing(seconds)
  {
    var values: set<int> := {1, 86400};
    for k := 0 to |rules| {
      var threshold := match rules[k].condition.minSessionSeconds case Some(n) => n case None => 1;
      values := values + {threshold, if threshold + 1 < 86400 then threshold + 1 else 86400};
    }
    NumericOrders();
    seconds := SortedSet(values, IntLe);
  }

  method PolicyClasses(rules: seq<Rule>) returns (classes: seq<string>) {
    var named: set<string> := {"default"};
    for k := 0 to |rules| {
      match rules[k].condition.policyClasses {
        case Some(listed) => named := named + set c | c in listed;
        case None =>
      }
    }
    StrOrder();
    classes := SortedSet(named, StrLe);
  }

  /** The grid check reports nothing, whatever the policy. */
  method ValidateMapperMonotonicity(policyId: string, base: AssuranceVector, rules: seq<Rule>) returns (errors: seq<string>)
    ensures errors == []
  {
    errors := [];
    var seconds := SessionValues(rules);
    var classes := PolicyClasses(rules);
    for n := 0 to |NETWORKS| {
      for o := 0 to |classes| {
        for s := 0 to |SENSITIVITIES| {
          for i := 0 to |IMPACTS| {
            for h := 0 to |HORIZONS| {
              for d := 0 to 9 {
                for t := 0 to |seconds| {
                  var passed := CheckPoint(base, rules, GridPoint(s, i, h, d, t), seconds, NETWORKS[n], classes[o]);
                  if !passed {
                    return [policyId + ": high task does not dominate low task"];
                  }
                }
              }
            }
          }
        }
      }
    }
  }
}
