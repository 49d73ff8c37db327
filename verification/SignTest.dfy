/** The two-sided sign test (src/pqtrust_agent/analysis/stage9.py). */
module SignTest {
  import opened Wrappers
  import opened Counting
  import opened Descriptive

  function Choose(n: nat, k: nat): nat {
    if k == 0 then 1 else if n == 0 then 0 else Choose(n-1, k-1) + Choose(n-1, k)
  }

  /** The first `s + 1` binomial coefficients of row `n`. */
  function Tail(n: nat, s: nat): nat {
    Choose(n, s) + if s == 0 then 0 else Tail(n, s-1)
  }

  function PowerOfTwo(n: nat): (r: nat)
    ensures r >= 1
  {
    if n == 0 then 1 else 2 * PowerOfTwo(n-1)
  }

  function Least(x: nat, y: nat): nat { if y < x then y else x }

  function IsPositive(): real -> bool { v => v > 0.0 }

  function IsNegative(): real -> bool { v => v < 0.0 }

  function Nonzero(differences: seq<real>): seq<real> {
    if differences == [] then []
    else (if differences[0] != 0.0 then [differences[0]] else []) + Nonzero(differences[1..])
  }

  function PValueOf(n: nat, successes: nat): real {
    var doubled := 2.0 * (Tail(n, successes) as real / PowerOfTwo(n) as real);
    if doubled < 1.0 then doubled else 1.0
  }

  /** The power of two that no float can hold. */
  const FLOAT_LIMIT := 1024

  datatype SignTestError = TooLargeForFloat

  function SignTestPValue(differences: seq<real>): Result<real, SignTestError> {
    if |Nonzero(differences)| >= FLOAT_LIMIT then Err(TooLargeForFloat) else Ok(ExactPValue(differences))
  }

  function ExactPValue(differences: seq<real>): real {
    var nonzero := Nonzero(differences);
    if nonzero == [] then 1.0
    else PValueOf(|nonzero|, Least(Count(nonzero, IsPositive()), Count(nonzero, IsNegative())))
  }

  // The reference: among all ways to give `n` more differences a sign, those that
  // leave at most `s` differences on one of the two sides.

  function Outcomes(n: nat, plus: nat, minus: nat, s: nat): nat {
    if n == 0 then (if plus <= s || minus <= s then 1 else 0)
    else Outcomes(n-1, plus+1, minus, s) + Outcomes(n-1, plus, minus+1, s)
  }

  /** Those that leave at most `s` on the side that has `side` already. */
  function OneSided(n: nat, side: nat, s: nat): nat {
    if n == 0 then (if side <= s then 1 else 0)
    else OneSided(n-1, side+1, s) + OneSided(n-1, side, s)
  }

  /** Those that leave at most `s` on both sides. */
  function BothSides(n: nat, plus: nat, minus: nat, s: nat): nat {
    if n == 0 then (if plus <= s && minus <= s then 1 else 0)
    else BothSides(n-1, plus+1, minus, s) + BothSides(n-1, plus, minus+1, s)
  }

  lemma {:induction false} TailRecurrence(n: nat, s: nat)
    ensures Tail(n + 1, s) == Tail(n, s) + if s == 0 then 0 else Tail(n, s-1)
  {
    if s > 0 { TailRecurrence(n, s - 1); }
  }

  lemma {:induction false} TailOfEmptyRow(s: nat)
    ensures Tail(0, s) == 1
  {
    if s > 0 { TailOfEmptyRow(s - 1); }
  }

  /** A binomial tail counts the one-sided outcomes. */
  lemma {:induction false} OneSidedIsTail(n: nat, side: nat, s: nat)
    ensures OneSided(n, side, s) == if side > s then 0 else Tail(n, s - side)
  {
    if n == 0 {
      if side <= s { TailOfEmptyRow(s - side); }
    } else {
      OneSidedIsTail(n - 1, side + 1, s);
      OneSidedIsTail(n - 1, side, s);
      if side <= s { TailRecurrence(n - 1, s - side); }
    }
  }

  lemma {:induction false} InclusionExclusion(n: nat, plus: nat, minus: nat, s: nat)
    ensures Outcomes(n, plus, minus, s) + BothSides(n, plus, minus, s) == OneSided(n, plus, s) + OneSided(n, minus, s)
  {
    if n > 0 {
      InclusionExclusion(n - 1, plus + 1, minus, s);
      InclusionExclusion(n - 1, plus, minus + 1, s);
    }
  }

  /** Both sides can stay at `s` only if there are few enough differences. */
  lemma {:induction false} BothSidesNeedRoom(n: nat, plus: nat, minus: nat, s: nat)
    ensures n + plus + minus > 2 * s ==> BothSides(n, plus, minus, s) == 0
    ensures n + plus + minus == 2 * s && plus <= s && minus <= s ==> BothSides(n, plus, minus, s) >= 1
  {
    if n > 0 {
      BothSidesNeedRoom(n - 1, plus + 1, minus, s);
      BothSidesNeedRoom(n - 1, plus, minus + 1, s);
    }
  }

  lemma {:induction false} OutcomesAreBounded(n: nat, plus: nat, minus: nat, s: nat)
    ensures Outcomes(n, plus, minus, s) <= PowerOfTwo(n)
    ensures n + plus + minus <= 2 * s + 1 ==> Outcomes(n, plus, minus, s) == PowerOfTwo(n)
    ensures plus <= s || minus <= s ==> Outcomes(n, plus, minus, s) >= 1
  {
    if n > 0 {
      OutcomesAreBounded(n - 1, plus + 1, minus, s);
      OutcomesAreBounded(n - 1, plus, minus + 1, s);
    }
  }

  /** With room for more than `s` on both sides, some outcome is less lopsided. */
  lemma {:induction false} SomeOutcomeIsBalanced(n: nat, plus: nat, minus: nat, s: nat)
    requires n + plus > s && n + minus > s && n + plus + minus >= 2 * s + 2
    ensures Outcomes(n, plus, minus, s) < PowerOfTwo(n)
  {
    if n > 0 {
      OutcomesAreBounded(n - 1, plus + 1, minus, s);
      OutcomesAreBounded(n - 1, plus, minus + 1, s);
      if n + minus > s + 1 {
        SomeOutcomeIsBalanced(n - 1, plus + 1, minus, s);
      } else {
        SomeOutcomeIsBalanced(n - 1, plus, minus + 1, s);
      }
    }
  }

  /** The cap at one is active only on a tie. */
  lemma CapIffTie(n: nat, s: nat)
    requires 2 * s <= n
    ensures 2 * Tail(n, s) == Outcomes(n, 0, 0, s) + BothSides(n, 0, 0, s)
    ensures 2 * Tail(n, s) > PowerOfTwo(n) <==> 2 * s == n
  {
    OneSidedIsTail(n, 0, s);
    InclusionExclusion(n, 0, 0, s);
    BothSidesNeedRoom(n, 0, 0, s);
    OutcomesAreBounded(n, 0, 0, s);
  }

  lemma RatioToOne(x: nat, y: nat)
    requires y > 0
    ensures x as real / y as real < 1.0 <==> x < y
    ensures x as real / y as real == 1.0 <==> x == y
    ensures x > 0 ==> x as real / y as real > 0.0
  {
    var q := x as real / y as real;
    assert q * y as real == x as real;
    if q < 1.0 { assert (1.0 - q) * y as real > 0.0; }
    if q > 1.0 { assert (q - 1.0) * y as real > 0.0; }
  }

  /** The value is the share of sign patterns at least as lopsided as the observed one. */
  lemma PValueIsShareOfOutcomes(n: nat, s: nat)
    requires 2 * s <= n
    ensures PValueOf(n, s) == Outcomes(n, 0, 0, s) as real / PowerOfTwo(n) as real
    ensures 0.0 < PValueOf(n, s) <= 1.0
    ensures PValueOf(n, s) == 1.0 <==> n <= 2 * s + 1
  {
    CapIffTie(n, s);
    BothSidesNeedRoom(n, 0, 0, s);
    OutcomesAreBounded(n, 0, 0, s);
    var total := PowerOfTwo(n);
    Doubling(Tail(n, s), total);
    RatioToOne(2 * Tail(n, s), total);
    RatioToOne(Outcomes(n, 0, 0, s), total);
    if n > 2 * s + 1 { SomeOutcomeIsBalanced(n, 0, 0, s); }
  }

  lemma Doubling(x: nat, y: nat)
    requires y > 0
    ensures 2.0 * (x as real / y as real) == (2 * x) as real / y as real
  {
  }

  lemma {:induction false} NonzeroCounts(differences: seq<real>)
    ensures Count(Nonzero(differences), IsPositive()) == Count(differences, IsPositive())
    ensures Count(Nonzero(differences), IsNegative()) == Count(differences, IsNegative())
    ensures |Nonzero(differences)| == Count(differences, IsPositive()) + Count(differences, IsNegative())
  {
    if differences != [] {
      var first := if differences[0] != 0.0 then [differences[0]] else [];
      CountConcat(first, Nonzero(differences[1..]), IsPositive());
      CountConcat(first, Nonzero(differences[1..]), IsNegative());
      NonzeroCounts(differences[1..]);
    }
  }

  /** The size of the smaller side. */
  function Minority(differences: seq<real>): nat {
    Least(Count(differences, IsPositive()), Count(differences, IsNegative()))
  }

  lemma PValueOfCounts(differences: seq<real>)
    ensures 2 * Minority(differences) <= |Nonzero(differences)|
    ensures ExactPValue(differences) == PValueOf(|Nonzero(differences)|, Minority(differences))
  {
    NonzeroCounts(differences);
    PValueIsShareOfOutcomes(|Nonzero(differences)|, Minority(differences));
  }

  /** What the test computes, from the numbers of positive and negative differences:
      an exact two-sided probability, one exactly when the two numbers differ by at most one.
      It raises when there are too many of them for the division by floats. */
  lemma SignTestIsExact(differences: seq<real>)
    ensures SignTestPValue(differences).Err? <==>
              Count(differences, IsPositive()) + Count(differences, IsNegative()) >= FLOAT_LIMIT
    ensures SignTestPValue(differences).Ok? ==>
      var plus, minus := Count(differences, IsPositive()), Count(differences, IsNegative());
      var p := SignTestPValue(differences).value;
      && p == Outcomes(plus + minus, 0, 0, Least(plus, minus)) as real / PowerOfTwo(plus + minus) as real
      && 0.0 < p <= 1.0
      && (p == 1.0 <==> -1 <= plus - minus <= 1)
  {
    NonzeroCounts(differences);
    PValueOfCounts(differences);
    PValueIsShareOfOutcomes(|Nonzero(differences)|, Minority(differences));
  }

  lemma {:induction false} OutcomesGrow(n: nat, plus: nat, minus: nat, s: nat, t: nat)
    requires s <= t
    ensures Outcomes(n, plus, minus, s) <= Outcomes(n, plus, minus, t)
  {
    if n > 0 {
      OutcomesGrow(n - 1, plus + 1, minus, s, t);
      OutcomesGrow(n - 1, plus, minus + 1, s, t);
    }
  }

  lemma Shares(x: nat, y: nat, total: nat)
    requires x <= y && total > 0
    ensures x as real / total as real <= y as real / total as real
  {
    var d := (y - x) as real / total as real;
    assert d * total as real == (y - x) as real;
    assert d >= 0.0;
  }

  /** Among equally many nonzero differences, a smaller minority gives a smaller value. */
  lemma MoreLopsidedIsSmaller(a: seq<real>, b: seq<real>)
    requires |Nonzero(a)| == |Nonzero(b)| && Minority(a) <= Minority(b)
    ensures SignTestPValue(a).Ok? <==> SignTestPValue(b).Ok?
    ensures SignTestPValue(a).Ok? ==> SignTestPValue(a).value <= SignTestPValue(b).value
  {
    PValueOfCounts(a);
    PValueOfCounts(b);
    PValueGrows(|Nonzero(a)|, Minority(a), Minority(b));
  }

  lemma PValueGrows(n: nat, s: nat, t: nat)
    requires s <= t && 2 * t <= n
    ensures PValueOf(n, s) <= PValueOf(n, t)
  {
    PValueIsShareOfOutcomes(n, s);
    PValueIsShareOfOutcomes(n, t);
    OutcomesGrow(n, 0, 0, s, t);
    Shares(Outcomes(n, 0, 0, s), Outcomes(n, 0, 0, t), PowerOfTwo(n));
  }

  /** Swapping the two compared methods, reordering the pairs or adding ties changes nothing. */
  lemma SignTestSymmetries(differences: seq<real>, negated: seq<real>, reordered: seq<real>, zeros: seq<real>)
    requires Image(Negate, differences, negated)
    requires multiset(reordered) == multiset(differences)
    requires forall k :: 0 <= k < |zeros| ==> zeros[k] == 0.0
    ensures SignTestPValue(negated) == SignTestPValue(differences)
    ensures SignTestPValue(reordered) == SignTestPValue(differences)
    ensures SignTestPValue(differences + zeros) == SignTestPValue(differences)
  {
    OppositeCounts(differences, negated);
    OppositeCounts(negated, differences);
    CountPermutation(reordered, differences, IsPositive());
    CountPermutation(reordered, differences, IsNegative());
    ZerosDoNotCount(differences, zeros);
    SameCounts(negated, differences);
    SameCounts(reordered, differences);
    SameCounts(differences + zeros, differences);
  }

  lemma OppositeCounts(a: seq<real>, b: seq<real>)
    requires Image(Negate, a, b)
    ensures Count(b, IsNegative()) == Count(a, IsPositive()) && Count(b, IsPositive()) == Count(a, IsNegative())
  {
    CountPointwise(a, IsPositive(), b, IsNegative());
    CountPointwise(a, IsNegative(), b, IsPositive());
    CountPointwise(b, IsPositive(), a, IsNegative());
    CountPointwise(b, IsNegative(), a, IsPositive());
  }

  lemma ZerosDoNotCount(differences: seq<real>, zeros: seq<real>)
    requires forall k :: 0 <= k < |zeros| ==> zeros[k] == 0.0
    ensures Count(differences + zeros, IsPositive()) == Count(differences, IsPositive())
    ensures Count(differences + zeros, IsNegative()) == Count(differences, IsNegative())
  {
    CountConcat(differences, zeros, IsPositive());
    CountConcat(differences, zeros, IsNegative());
    CountAll(zeros, IsPositive());
    CountAll(zeros, IsNegative());
  }

  lemma SameCounts(a: seq<real>, b: seq<real>)
    requires Minority(a) == Minority(b)
    requires Count(a, IsPositive()) + Count(a, IsNegative()) == Count(b, IsPositive()) + Count(b, IsNegative())
    ensures SignTestPValue(a) == SignTestPValue(b)
  {
    NonzeroCounts(a);
    NonzeroCounts(b);
    PValueOfCounts(a);
    PValueOfCounts(b);
  }
}
