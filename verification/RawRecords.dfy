/** Raw calibration records and the counting checks on them: how many there are,
    their sequence numbers, the cases that occur and the balance of every block
    of one replicate (metrics/validation.py). */
module RawRecords {
  import opened Sorting
  import opened Wrappers

  /** What one record measures: a TLS group, or an ML-DSA algorithm and message size. */
  datatype Case = TlsCase(group: string) | MldsaCase(algorithm: string, messageSize: int)

  /** A record of one measured case; `sequence` is `None` when it is not an integer. */
  datatype Record = Record(sequence: Option<int>, block: int, item: Case, success: bool)

  datatype ValidationError =
    | WrongRecordCount(expected: nat, observed: nat)
    | SequenceNotInteger
    | DuplicateSequence
    | SequenceNotContiguous
    | WrongCases
    | UnbalancedBlock(block: int)
    | NotSuccessful(index: nat)

  // Meaning of the checks.

  function Range(n: nat): seq<int> {
    seq(n, i => i)
  }

  function Sequences(records: seq<Record>): seq<int>
    requires forall k :: 0 <= k < |records| ==> records[k].sequence.Some?
  {
    seq(|records|, k requires 0 <= k < |records| => records[k].sequence.value)
  }

  /** The sequence numbers are exactly 0, 1, ..., in some order. */
  ghost predicate Contiguous(records: seq<Record>) {
    && (forall k :: 0 <= k < |records| ==> records[k].sequence.Some?)
    && multiset(Sequences(records)) == multiset(Range(|records|))
  }

  function CaseSet(cases: seq<Case>): set<Case> {
    set c | c in cases
  }

  /** The cases measured in a block, in file order. */
  function CasesInBlock(records: seq<Record>, block: int): seq<Case> {
    if records == [] then []
    else
      var last := records[|records|-1];
      CasesInBlock(records[..|records|-1], block) + if last.block == block then [last.item] else []
  }

  /** Every expected case occurs exactly once in the block. */
  ghost predicate Balanced(records: seq<Record>, expected: set<Case>, block: int) {
    multiset(CasesInBlock(records, block)) == multiset(expected)
  }

  /** What the counting checks establish about one replicate. */
  ghost predicate CountsValid(records: seq<Record>, cases: seq<Case>, blocks: nat) {
    && |records| == blocks * |cases|
    && Contiguous(records)
    && (forall c :: c in cases <==> exists k :: 0 <= k < |records| && records[k].item == c)
    && forall b :: 0 <= b < blocks ==> Balanced(records, CaseSet(cases), b)
  }

  ghost predicate AllSuccessful(records: seq<Record>) {
    forall k :: 0 <= k < |records| ==> records[k].success
  }

  // The checks.

  method ValidateSequences(records: seq<Record>) returns (errors: seq<ValidationError>)
    ensures errors == [] <==> Contiguous(records)
    ensures forall e :: e in errors ==> e.SequenceNotInteger? || e.DuplicateSequence? || e.SequenceNotContiguous?
  {
    errors := [];
    if exists k | 0 <= k < |records| :: records[k].sequence.None? {
      return [SequenceNotInteger];
    }
    var sequences := Sequences(records);
    NumericOrders();
    SortSorted(sequences, IntLe);
    SortPermutes(sequences, IntLe);
    if |sequences| != |set s | s in sequences| {
      errors := errors + [DuplicateSequence];
    }
    if SortBy(sequences, IntLe) != Range(|sequences|) {
      errors := errors + [SequenceNotContiguous];
    }
    if multiset(sequences) == multiset(Range(|records|)) {
      SortedUnique(SortBy(sequences, IntLe), Range(|records|), IntLe);
      RangeMembers(sequences);
    }
  }

  lemma RangeMembers(s: seq<int>)
    requires multiset(s) == multiset(Range(|s|))
    ensures |set x | x in s| == |s|
  {
    assert Distinct(Range(|s|));
    DistinctIffMultiplicity(Range(|s|));
    DistinctIffMultiplicity(s);
    DistinctIffFullSet(s);
  }

  method IsBalanced(records: seq<Record>, expected: set<Case>, block: int) returns (r: bool)
    ensures r <==> Balanced(records, expected, block)
  {
    r := multiset(CasesInBlock(records, block)) == multiset(expected);
  }

  /** One error for every block that is not balanced. */
  method BlockErrors(records: seq<Record>, expected: set<Case>, blocks: nat) returns (errors: seq<ValidationError>)
    ensures errors == [] <==> forall b :: 0 <= b < blocks ==> Balanced(records, expected, b)
    ensures forall e :: e in errors <==> e.UnbalancedBlock? && 0 <= e.block < blocks && !Balanced(records, expected, e.block)
  {
    errors := [];
    ghost var seen: seq<bool> := [];
    for block := 0 to blocks
      invariant |seen| == block && forall b :: 0 <= b < block ==> seen[b] == Balanced(records, expected, b)
      invariant forall e :: e in errors <==> e.UnbalancedBlock? && 0 <= e.block < block && !seen[e.block]
    {
      var here := IsBalanced(records, expected, block);
      if !here {
        errors := errors + [UnbalancedBlock(block)];
      }
      seen := seen + [here];
    }
    NoErrorIffAllSeen(errors, seen);
    forall b | 0 <= b < blocks ensures seen[b] == Balanced(records, expected, b) {}
  }

  lemma NoErrorIffAllSeen(errors: seq<ValidationError>, seen: seq<bool>)
    requires forall e :: e in errors <==> e.UnbalancedBlock? && 0 <= e.block < |seen| && !seen[e.block]
    ensures errors == [] <==> forall b :: 0 <= b < |seen| ==> seen[b]
  {
    if errors == [] {
      assert forall b :: 0 <= b < |seen| && !seen[b] ==> UnbalancedBlock(b) in errors;
    } else {
      assert errors[0] in errors;
    }
  }

  method SuccessErrors(records: seq<Record>) returns (errors: seq<ValidationError>)
    ensures errors == [] <==> AllSuccessful(records)
    ensures forall e :: e in errors <==> e.NotSuccessful? && e.index < |records| && !records[e.index].success
  {
    errors := [];
    for k := 0 to |records|
      invariant errors == [] <==> forall i :: 0 <= i < k ==> records[i].success
      invariant forall e :: e in errors <==> e.NotSuccessful? && e.index < k && !records[e.index].success
    {
      if !records[k].success {
        errors := errors + [NotSuccessful(k)];
      }
    }
  }

  method ValidateRecords(records: seq<Record>, cases: seq<Case>, blocks: nat) returns (errors: seq<ValidationError>)
    ensures errors == [] <==> CountsValid(records, cases, blocks) && AllSuccessful(records)
  {
    var countErrors := if |records| != blocks * |cases| then [WrongRecordCount(blocks * |cases|, |records|)] else [];
    var sequenceErrors := ValidateSequences(records);
    var expected := CaseSet(cases);
    var observed := set r | r in records :: r.item;
    CasesObserved(records, cases, expected, observed);
    var caseErrors := if observed != expected then [WrongCases] else [];
    var blockErrors := BlockErrors(records, expected, blocks);
    var successErrors := SuccessErrors(records);
    errors := countErrors + sequenceErrors + caseErrors + blockErrors + successErrors;
  }

  lemma CasesObserved(records: seq<Record>, cases: seq<Case>, expected: set<Case>, observed: set<Case>)
    requires expected == CaseSet(cases)
    requires observed == set r | r in records :: r.item
    ensures observed == expected <==>
              forall c :: c in cases <==> exists k :: 0 <= k < |records| && records[k].item == c
  {
    forall c ensures c in observed <==> exists k :: 0 <= k < |records| && records[k].item == c {
      if k :| 0 <= k < |records| && records[k].item == c { assert records[k] in records; }
      if c in observed {
        var r :| r in records && r.item == c;
        var k :| 0 <= k < |records| && records[k] == r;
      }
    }
    assert forall c :: c in expected <==> c in cases;
    if forall c :: c in cases <==> exists k :: 0 <= k < |records| && records[k].item == c {
      assert forall c :: c in observed <==> c in expected;
    }
  }

  // Consequences of valid counts.

  function CountIn(records: seq<Record>, blocks: nat): nat {
    if records == [] then 0
    else
      var last := records[|records|-1];
      CountIn(records[..|records|-1], blocks) + if 0 <= last.block < blocks then 1 else 0
  }

  lemma {:induction false} CountSplits(records: seq<Record>, blocks: nat)
    ensures CountIn(records, blocks + 1) == CountIn(records, blocks) + |CasesInBlock(records, blocks)|
  {
    if records != [] { CountSplits(records[..|records|-1], blocks); }
  }

  lemma {:induction false} CountNone(records: seq<Record>)
    ensures CountIn(records, 0) == 0
  {
    if records != [] { CountNone(records[..|records|-1]); }
  }

  lemma BalancedSize(records: seq<Record>, expected: set<Case>, block: int)
    requires Balanced(records, expected, block)
    ensures |CasesInBlock(records, block)| == |expected|
  {
    var found := CasesInBlock(records, block);
    assert |multiset(found)| == |found| && |multiset(expected)| == |expected|;
  }

  lemma {:induction false} CountOfBalanced(records: seq<Record>, expected: set<Case>, blocks: nat)
    requires forall b :: 0 <= b < blocks ==> Balanced(records, expected, b)
    ensures CountIn(records, blocks) == blocks * |expected|
  {
    if blocks == 0 {
      CountNone(records);
      assert blocks * |expected| == 0;
    } else {
      BalancedSize(records, expected, blocks - 1);
      CountOfBalanced(records, expected, blocks - 1);
      CountSplits(records, blocks - 1);
      assert blocks * |expected| == (blocks - 1) * |expected| + |expected|;
    }
  }

  lemma {:induction false} FullCountMeansInside(records: seq<Record>, blocks: nat)
    ensures CountIn(records, blocks) <= |records|
    ensures CountIn(records, blocks) == |records| ==> forall k :: 0 <= k < |records| ==> 0 <= records[k].block < blocks
  {
    if records != [] { FullCountMeansInside(records[..|records|-1], blocks); }
  }

  /** Counting each expected case once is counting the list, if it has no repeats. */
  lemma SetCountsList(cases: seq<Case>)
    ensures Distinct(cases) <==> multiset(cases) == multiset(CaseSet(cases))
    ensures Distinct(cases) <==> |CaseSet(cases)| == |cases|
  {
    DistinctIffMultiplicity(cases);
    DistinctIffFullSet(cases);
    var all := CaseSet(cases);
    assert all == set x | x in cases;
    forall c ensures multiset(all)[c] == if c in multiset(cases) then 1 else 0 {
      assert c in multiset(cases) <==> c in cases;
    }
    if Distinct(cases) {
      forall c ensures multiset(cases)[c] == multiset(all)[c] { assert multiset(cases)[c] <= 1; }
    }
  }

  /** When the counts are right, no record lies outside the measured blocks. */
  lemma NoRecordOutsideBlocks(records: seq<Record>, cases: seq<Case>, blocks: nat)
    requires CountsValid(records, cases, blocks) && Distinct(cases)
    ensures forall k :: 0 <= k < |records| ==> 0 <= records[k].block < blocks
  {
    SetCountsList(cases);
    CountOfBalanced(records, CaseSet(cases), blocks);
    FullCountMeansInside(records, blocks);
  }

  lemma {:induction false} TwiceInBlock(records: seq<Record>, i: nat, j: nat)
    requires i < j < |records| && records[i].block == records[j].block && records[i].item == records[j].item
    ensures multiset(CasesInBlock(records, records[i].block))[records[i].item] >= 2
  {
    var front := records[..|records|-1];
    if j < |records| - 1 {
      TwiceInBlock(front, i, j);
    } else {
      OnceInBlock(front, i);
    }
  }

  lemma {:induction false} OnceInBlock(records: seq<Record>, i: nat)
    requires i < |records|
    ensures multiset(CasesInBlock(records, records[i].block))[records[i].item] >= 1
  {
    if i < |records| - 1 { OnceInBlock(records[..|records|-1], i); }
  }

  lemma {:induction false} FindInBlock(records: seq<Record>, block: int, c: Case) returns (k: nat)
    requires c in CasesInBlock(records, block)
    ensures k < |records| && records[k].block == block && records[k].item == c
  {
    var front := records[..|records|-1];
    if c in CasesInBlock(front, block) {
      k := FindInBlock(front, block, c);
    } else {
      k := |records| - 1;
    }
  }

  /** Every pair of a measured block and a case is recorded exactly once. */
  lemma EachPairOnce(records: seq<Record>, cases: seq<Case>, blocks: nat, block: int, c: Case) returns (k: nat)
    requires CountsValid(records, cases, blocks) && 0 <= block < blocks && c in cases
    ensures k < |records| && records[k].block == block && records[k].item == c
    ensures forall i :: 0 <= i < |records| && records[i].block == block && records[i].item == c ==> i == k
  {
    var expected := CaseSet(cases);
    var found := CasesInBlock(records, block);
    assert Balanced(records, expected, block);
    assert multiset(found)[c] == 1;
    assert c in multiset(found);
    k := FindInBlock(records, block, c);
    forall i | 0 <= i < |records| && records[i].block == block && records[i].item == c ensures i == k {
      if i < k { TwiceInBlock(records, i, k); }
      if k < i { TwiceInBlock(records, k, i); }
    }
  }
}
