/** Assurance vectors and their lattice (models/common.py, models/requirements.py,
    assurance/order.py). A requirement is an assurance vector used as a floor. */
module Assurance {

  datatype Threat = Classical | Quantum

  datatype FallbackRule = LowRiskOnly | ExplicitOnly | FallbackForbidden {
    function Rank(): nat {
      match this case LowRiskOnly => 0 case ExplicitOnly => 1 case FallbackForbidden => 2
    }
  }

  datatype ResumptionRule = ContextBound | ContractBound | ResumptionForbidden {
    function Rank(): nat {
      match this case ContextBound => 0 case ContractBound => 1 case ResumptionForbidden => 2
    }
  }

  datatype LeaseStrictness = LongLease | MediumLease | ShortLease {
    function Rank(): nat {
      match this case LongLease => 0 case MediumLease => 1 case ShortLease => 2
    }
  }

  datatype AssuranceVector = AssuranceVector(
    keyEstablishment: set<Threat>,
    endpointAuthentication: set<Threat>,
    contractEvidence: set<Threat>,
    fallbackRule: FallbackRule,
    resumptionRule: ResumptionRule,
    leaseStrictness: LeaseStrictness)

  predicate Dominates(left: AssuranceVector, right: AssuranceVector) {
    && left.keyEstablishment >= right.keyEstablishment
    && left.endpointAuthentication >= right.endpointAuthentication
    && left.contractEvidence >= right.contractEvidence
    && left.fallbackRule.Rank() >= right.fallbackRule.Rank()
    && left.resumptionRule.Rank() >= right.resumptionRule.Rank()
    && left.leaseStrictness.Rank() >= right.leaseStrictness.Rank()
  }

  function Join(left: AssuranceVector, right: AssuranceVector): AssuranceVector {
    AssuranceVector(
      left.keyEstablishment + right.keyEstablishment,
      left.endpointAuthentication + right.endpointAuthentication,
      left.contractEvidence + right.contractEvidence,
      if left.fallbackRule.Rank() >= right.fallbackRule.Rank() then left.fallbackRule else right.fallbackRule,
      if left.resumptionRule.Rank() >= right.resumptionRule.Rank() then left.resumptionRule else right.resumptionRule,
      if left.leaseStrictness.Rank() >= right.leaseStrictness.Rank() then left.leaseStrictness else right.leaseStrictness)
  }

  function Meet(left: AssuranceVector, right: AssuranceVector): AssuranceVector {
    AssuranceVector(
      left.keyEstablishment * right.keyEstablishment,
      left.endpointAuthentication * right.endpointAuthentication,
      left.contractEvidence * right.contractEvidence,
      if left.fallbackRule.Rank() <= right.fallbackRule.Rank() then left.fallbackRule else right.fallbackRule,
      if left.resumptionRule.Rank() <= right.resumptionRule.Rank() then left.resumptionRule else right.resumptionRule,
      if left.leaseStrictness.Rank() <= right.leaseStrictness.Rank() then left.leaseStrictness else right.leaseStrictness)
  }

  /** Two vectors that dominate each other are equal: ranks are injective. */
  lemma DominanceAntisymmetric(a: AssuranceVector, b: AssuranceVector)
    requires Dominates(a, b) && Dominates(b, a)
    ensures a == b
  {
    assert a.keyEstablishment == b.keyEstablishment;
    assert a.endpointAuthentication == b.endpointAuthentication;
    assert a.contractEvidence == b.contractEvidence;
  }

  /** Dominance over the join of two floors is dominance over both, and the
      dual for the meet: join and meet are the lattice operations. */
  lemma JoinMeetAreBounds(a: AssuranceVector, b: AssuranceVector, c: AssuranceVector)
    ensures Dominates(c, Join(a, b)) <==> Dominates(c, a) && Dominates(c, b)
    ensures Dominates(Meet(a, b), c) <==> Dominates(a, c) && Dominates(b, c)
    ensures Join(a, Meet(a, b)) == a && Meet(a, Join(a, b)) == a
  {
    DominanceAntisymmetric(Join(a, Meet(a, b)), a);
    DominanceAntisymmetric(Meet(a, Join(a, b)), a);
  }
}
