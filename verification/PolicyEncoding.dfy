/** Hard-constraint categories, their finite-domain encoding and the solver
    (policy/z3_encoding.py, models/compilation.py, models/profile.py). */
module PolicyEncoding {
  import opened Wrappers
  import opened Sorting
  import opened Assurance
  import opened PolicyMapper

  datatype EndpointMode = ClassicalX509 | DualX509Mldsa | PqMldsa

  datatype EvidenceMode = Mldsa65 | Mldsa87

  datatype Profile = Profile(
    profileId: string,
    endpointMode: EndpointMode,
    evidenceMode: EvidenceMode,
    fallbackRule: FallbackRule,
    resumptionRule: ResumptionRule,
    leaseStrictness: LeaseStrictness,
    maxLeaseSeconds: int,
    assurance: AssuranceVector)
  {
    /** The declared rules agree with the assurance vector. */
    predicate Consistent() {
      && assurance.fallbackRule == fallbackRule
      && assurance.resumptionRule == resumptionRule
      && assurance.leaseStrictness == leaseStrictness
    }
  }

  datatype Policy = Policy(
    agentId: string,
    catalogVersion: string,
    baseRequirement: AssuranceVector,
    allowed: seq<string>,
    denied: seq<string>,
    endpointModes: Option<seq<EndpointMode>>,
    evidenceModes: Option<seq<EvidenceMode>>,
    rules: seq<Rule>)

  /** What the hard constraints of one compilation depend on. */
  datatype Context = Context(supported: seq<string>, policy: Policy, task: Task, requirement: AssuranceVector)

  datatype Category =
    | Capability | OrganizationPolicy | KemAssurance | EndpointAuthentication
    | ContractEvidence | Fallback | Resumption | Lease | ResourceBound
  {
    function Order(): nat {
      match this
      case Capability => 0 case OrganizationPolicy => 1 case KemAssurance => 2
      case EndpointAuthentication => 3 case ContractEvidence => 4 case Fallback => 5
      case Resumption => 6 case Lease => 7 case ResourceBound => 8
    }
  }

  predicate CategoryLe(a: Category, b: Category) {
    a.Order() <= b.Order()
  }

  /** Every category but the resource bound, in canonical order. */
  const CANONICAL: seq<Category> :=
    [Capability, OrganizationPolicy, KemAssurance, EndpointAuthentication, ContractEvidence, Fallback, Resumption, Lease]

  lemma CanonicalCategories()
    ensures forall c: Category :: c in CANONICAL <==> c != ResourceBound
    ensures forall i :: 0 <= i < |CANONICAL| ==> CANONICAL[i].Order() == i
  {
    forall c: Category | c != ResourceBound ensures c in CANONICAL {
      assert CANONICAL[c.Order()] == c;
    }
  }

  function AsSet(cs: seq<Category>): set<Category> {
    set c | c in cs
  }

  // What each category demands of a profile.

  ghost predicate Meets(ctx: Context, p: Profile, c: Category) {
    match c
    case Capability => p.profileId in ctx.supported
    case OrganizationPolicy => p.profileId in ctx.policy.allowed && p.profileId !in ctx.policy.denied
    case KemAssurance => ctx.requirement.keyEstablishment <= p.assurance.keyEstablishment
    case EndpointAuthentication =>
      && ctx.requirement.endpointAuthentication <= p.assurance.endpointAuthentication
      && (ctx.policy.endpointModes.Some? ==> p.endpointMode in ctx.policy.endpointModes.value)
    case ContractEvidence =>
      && ctx.requirement.contractEvidence <= p.assurance.contractEvidence
      && (ctx.policy.evidenceModes.Some? ==> p.evidenceMode in ctx.policy.evidenceModes.value)
    case Fallback => ctx.requirement.fallbackRule.Rank() <= p.fallbackRule.Rank()
    case Resumption => ctx.requirement.resumptionRule.Rank() <= p.resumptionRule.Rank()
    case Lease =>
      && ctx.requirement.leaseStrictness.Rank() <= p.leaseStrictness.Rank()
      && ctx.task.sessionSeconds <= p.maxLeaseSeconds
    case ResourceBound => true
  }

  ghost predicate Safe(ctx: Context, p: Profile) {
    forall c: Category :: Meets(ctx, p, c)
  }

  /** The members of `cs` that the profile violates, in the order of `cs`. */
  ghost function ViolatedAmong(ctx: Context, p: Profile, cs: seq<Category>): (v: seq<Category>)
    ensures forall c :: c in v <==> c in cs && !Meets(ctx, p, c)
  {
    if cs == [] then []
    else
      var last := cs[|cs|-1];
      ViolatedAmong(ctx, p, cs[..|cs|-1]) + if Meets(ctx, p, last) then [] else [last]
  }

  ghost function Violated(ctx: Context, p: Profile): seq<Category> {
    ViolatedAmong(ctx, p, CANONICAL)
  }

  lemma NothingViolatedIffSafe(ctx: Context, p: Profile)
    ensures Violated(ctx, p) == [] <==> Safe(ctx, p)
  {
    CanonicalCategories();
    var v := Violated(ctx, p);
    if v == [] {
      forall c: Category ensures Meets(ctx, p, c) {
        if c != ResourceBound { assert c !in v; }
      }
    } else {
      assert v[0] in v;
    }
  }

  /** The test by which a category is reported. */
  predicate Reported(ctx: Context, p: Profile, c: Category) {
    match c
    case Capability => p.profileId !in ctx.supported
    case OrganizationPolicy => p.profileId !in ctx.policy.allowed || p.profileId in ctx.policy.denied
    case KemAssurance => !(p.assurance.keyEstablishment >= ctx.requirement.keyEstablishment)
    case EndpointAuthentication =>
      || !(p.assurance.endpointAuthentication >= ctx.requirement.endpointAuthentication)
      || (ctx.policy.endpointModes.Some? && p.endpointMode !in ctx.policy.endpointModes.value)
    case ContractEvidence =>
      || !(p.assurance.contractEvidence >= ctx.requirement.contractEvidence)
      || (ctx.policy.evidenceModes.Some? && p.evidenceMode !in ctx.policy.evidenceModes.value)
    case Fallback => p.fallbackRule.Rank() < ctx.requirement.fallbackRule.Rank()
    case Resumption => p.resumptionRule.Rank() < ctx.requirement.resumptionRule.Rank()
    case Lease =>
      || p.leaseStrictness.Rank() < ctx.requirement.leaseStrictness.Rank()
      || ctx.task.sessionSeconds > p.maxLeaseSeconds
    case ResourceBound => false
  }

  /** Reported and demanded are written apart, and are opposites. */
  lemma ReportedIsNotMet(ctx: Context, p: Profile, c: Category)
    ensures Reported(ctx, p, c) <==> !Meets(ctx, p, c)
  {
  }

  method ReportInto(ctx: Context, p: Profile, c: Category, categories: seq<Category>) returns (more: seq<Category>)
    ensures more == categories + if Meets(ctx, p, c) then [] else [c]
  {
    ReportedIsNotMet(ctx, p, c);
    more := if Reported(ctx, p, c) then categories + [c] else categories;
  }

  /** The public violation list of a profile. */
  method ProfileViolatedCategories(ctx: Context, p: Profile) returns (v: seq<Category>)
    ensures v == Violated(ctx, p)
  {
    var categories: seq<Category> := [];
    for k := 0 to |CANONICAL|
      invariant categories == ViolatedAmong(ctx, p, CANONICAL[..k])
    {
      assert CANONICAL[..k+1][..k] == CANONICAL[..k];
      categories := ReportInto(ctx, p, CANONICAL[k], categories);
    }
    assert CANONICAL[..|CANONICAL|] == CANONICAL;
    v := SortCategories(categories);
    ViolatedIsCanonical(ctx, p, v);
  }

  /** `sorted(set(categories))` in canonical order. */
  method SortCategories(categories: seq<Category>) returns (sorted: seq<Category>)
    ensures SortedBy(sorted, CategoryLe) && Distinct(sorted)
    ensures forall c :: c in sorted <==> c in categories
  {
    sorted := SortedSet(AsSet(categories), CategoryLe);
  }

  ghost predicate StrictlyOrdered(cs: seq<Category>) {
    forall i, j :: 0 <= i < j < |cs| ==> cs[i].Order() < cs[j].Order()
  }

  lemma OrderIsInjective(a: Category, b: Category)
    requires a.Order() == b.Order()
    ensures a == b
  {
  }

  lemma {:induction false} ViolatedAmongIsOrdered(ctx: Context, p: Profile, cs: seq<Category>)
    requires StrictlyOrdered(cs)
    ensures StrictlyOrdered(ViolatedAmong(ctx, p, cs))
  {
    if cs != [] {
      var front := cs[..|cs|-1];
      ViolatedAmongIsOrdered(ctx, p, front);
      var v := ViolatedAmong(ctx, p, front);
      forall k | 0 <= k < |v| ensures v[k].Order() < cs[|cs|-1].Order() { assert v[k] in v; }
    }
  }

  lemma TailMembers(a: seq<Category>, b: seq<Category>)
    requires StrictlyOrdered(a) && a != [] && b != [] && a[0] == b[0] && forall c :: c in a ==> c in b
    ensures forall c :: c in a[1..] ==> c in b[1..]
  {
    forall c | c in a[1..] ensures c in b[1..] {
      var i :| 0 <= i < |a[1..]| && a[1..][i] == c;
      assert a[0].Order() < a[i+1].Order();
      assert a[i+1] in a && c != b[0];
      assert b == [b[0]] + b[1..];
    }
  }

  lemma NonemptyHasMember(cs: seq<Category>)
    ensures cs != [] ==> exists c :: c in cs
  {
    if cs != [] { assert cs[0] in cs; }
  }

  lemma {:induction false} StrictlyOrderedUnique(a: seq<Category>, b: seq<Category>)
    requires StrictlyOrdered(a) && StrictlyOrdered(b) && forall c :: c in a <==> c in b
    ensures a == b
  {
    NonemptyHasMember(b);
    if a != [] {
      assert a[0] in b;
      assert b[0] in a;
      OrderIsInjective(a[0], b[0]);
      assert a == [a[0]] + a[1..] && b == [b[0]] + b[1..];
      TailMembers(a, b);
      TailMembers(b, a);
      StrictlyOrderedUnique(a[1..], b[1..]);
    }
  }

  lemma ViolatedIsCanonical(ctx: Context, p: Profile, v: seq<Category>)
    requires SortedBy(v, CategoryLe) && Distinct(v)
    requires forall c :: c in v <==> c in CANONICAL && !Meets(ctx, p, c)
    ensures v == Violated(ctx, p)
  {
    CanonicalCategories();
    ViolatedAmongIsOrdered(ctx, p, CANONICAL);
    StrictlyOrderedUnique(v, Violated(ctx, p));
  }

  // The encoding over the selected index.

  datatype Expr =
    | BoolVal(b: bool)
    | IndexIs(i: int)
    | IndexIsNot(i: int)
    | IndexNonNegative
    | IndexBelow(n: int)
    | And(conjuncts: seq<Expr>)
    | Or(disjuncts: seq<Expr>)
  {
    predicate Eval(selected: int) {
      match this
      case BoolVal(b) => b
      case IndexIs(i) => selected == i
      case IndexIsNot(i) => selected != i
      case IndexNonNegative => selected >= 0
      case IndexBelow(n) => selected < n
      case And(es) => forall k | 0 <= k < |es| :: es[k].Eval(selected)
      case Or(es) => exists k | 0 <= k < |es| :: es[k].Eval(selected)
    }
  }

  /** Disjunction of `selected == index && predicate(profile)` over the catalogue. */
  function IndexedBool(profiles: seq<Profile>, holds: Profile -> bool): (e: Expr)
    ensures forall x :: e.Eval(x) <==> 0 <= x < |profiles| && holds(profiles[x])
  {
    var es := seq(|profiles|, i requires 0 <= i < |profiles| => And([IndexIs(i), BoolVal(holds(profiles[i]))]));
    var e := Or(es);
    assert forall x :: e.Eval(x) <==> 0 <= x < |profiles| && holds(profiles[x]) by {
      forall k, x | 0 <= k < |es| ensures es[k].Eval(x) <==> x == k && holds(profiles[k]) {
        assert es[k].conjuncts[0] == IndexIs(k) && es[k].conjuncts[1] == BoolVal(holds(profiles[k]));
      }
      forall x | 0 <= x < |profiles| && holds(profiles[x]) ensures e.Eval(x) { assert es[x].Eval(x); }
    }
    e
  }

  lemma EvalAnd2(a: Expr, b: Expr, x: int)
    ensures And([a, b]).Eval(x) <==> a.Eval(x) && b.Eval(x)
  {
    assert [a, b][0] == a && [a, b][1] == b;
  }

  lemma EvalAnd3(a: Expr, b: Expr, c: Expr, x: int)
    ensures And([a, b, c]).Eval(x) <==> a.Eval(x) && b.Eval(x) && c.Eval(x)
  {
    assert [a, b, c][0] == a && [a, b, c][1] == b && [a, b, c][2] == c;
  }

  function ConstraintFor(profiles: seq<Profile>, ctx: Context, c: Category): Expr
    requires c != ResourceBound
  {
    match c
    case Capability =>
      And([IndexNonNegative, IndexBelow(|profiles|),
           IndexedBool(profiles, (p: Profile) => p.profileId in ctx.supported)])
    case OrganizationPolicy =>
      And([IndexedBool(profiles, (p: Profile) => p.profileId in ctx.policy.allowed),
           IndexedBool(profiles, (p: Profile) => p.profileId !in ctx.policy.denied)])
    case KemAssurance =>
      IndexedBool(profiles, (p: Profile) => p.assurance.keyEstablishment >= ctx.requirement.keyEstablishment)
    case EndpointAuthentication =>
      And([IndexedBool(profiles, (p: Profile) => p.assurance.endpointAuthentication >= ctx.requirement.endpointAuthentication),
           IndexedBool(profiles, (p: Profile) =>
             ctx.policy.endpointModes.None? || p.endpointMode in ctx.policy.endpointModes.value)])
    case ContractEvidence =>
      And([IndexedBool(profiles, (p: Profile) => p.assurance.contractEvidence >= ctx.requirement.contractEvidence),
           IndexedBool(profiles, (p: Profile) =>
             ctx.policy.evidenceModes.None? || p.evidenceMode in ctx.policy.evidenceModes.value)])
    case Fallback =>
      IndexedBool(profiles, (p: Profile) => p.fallbackRule.Rank() >= ctx.requirement.fallbackRule.Rank())
    case Resumption =>
      IndexedBool(profiles, (p: Profile) => p.resumptionRule.Rank() >= ctx.requirement.resumptionRule.Rank())
    case Lease =>
      And([IndexedBool(profiles, (p: Profile) => p.leaseStrictness.Rank() >= ctx.requirement.leaseStrictness.Rank()),
           IndexedBool(profiles, (p: Profile) => ctx.task.sessionSeconds <= p.maxLeaseSeconds)])
  }

  /** The encoding of a category means what the category demands. */
  lemma EncodingMeansMeets(profiles: seq<Profile>, ctx: Context, c: Category, x: int)
    requires c != ResourceBound
    ensures ConstraintFor(profiles, ctx, c).Eval(x) <==> 0 <= x < |profiles| && Meets(ctx, profiles[x], c)
  {
    var e := ConstraintFor(profiles, ctx, c);
    match c
    case Capability => EvalAnd3(e.conjuncts[0], e.conjuncts[1], e.conjuncts[2], x);
    case OrganizationPolicy => EvalAnd2(e.conjuncts[0], e.conjuncts[1], x);
    case EndpointAuthentication => EvalAnd2(e.conjuncts[0], e.conjuncts[1], x);
    case ContractEvidence => EvalAnd2(e.conjuncts[0], e.conjuncts[1], x);
    case Lease => EvalAnd2(e.conjuncts[0], e.conjuncts[1], x);
    case KemAssurance =>
    case Fallback =>
    case Resumption =>
  }

  // The solver.

  /** An assertion, possibly implied by the assumption label of a category. */
  datatype Assertion = Plain(e: Expr) | Implied(guard: Category, e: Expr)

  datatype Status = Sat(index: int) | Unsat | Unknown

  /** `selected` with the labels in `on` switched on satisfies all assertions. */
  predicate Satisfies(assertions: seq<Assertion>, on: set<Category>, selected: int) {
    forall k | 0 <= k < |assertions| ::
      (assertions[k].Implied? && assertions[k].guard !in on) || assertions[k].e.Eval(selected)
  }

  class Solver {
    var assertions: seq<Assertion>

    constructor ()
      ensures assertions == []
    {
      assertions := [];
    }

    method Add(a: Assertion)
      modifies this
      ensures assertions == old(assertions) + [a]
    {
      assertions := assertions + [a];
    }

    /** Any satisfying index, or unsat when no index does under any labelling
        that includes the assumptions; it may also give up. The caller has
        confined the index to `0..size`. */
    method Check(assumptions: seq<Category>, size: nat, mayGiveUp: bool) returns (r: Status)
      requires forall x :: Satisfies(assertions, AsSet(assumptions), x) ==> 0 <= x < size
      ensures r.Sat? ==> Satisfies(assertions, AsSet(assumptions), r.index)
      ensures r.Unsat? ==> forall x, on: set<Category> :: AsSet(assumptions) <= on ==> !Satisfies(assertions, on, x)
      ensures r.Unknown? ==> mayGiveUp
    {
      if mayGiveUp {
        if * {
          return Unknown;
        }
      }
      var on := AsSet(assumptions);
      if x :| 0 <= x < size && Satisfies(assertions, on, x) {
        return Sat(x);
      }
      forall x, more: set<Category> | on <= more
        ensures !Satisfies(assertions, more, x)
      {
        if Satisfies(assertions, more, x) {
          FewerLabels(assertions, more, on, x);
        }
      }
      return Unsat;
    }
  }

  lemma FewerLabels(assertions: seq<Assertion>, more: set<Category>, fewer: set<Category>, x: int)
    requires Satisfies(assertions, more, x) && fewer <= more
    ensures Satisfies(assertions, fewer, x)
  {
  }
}
