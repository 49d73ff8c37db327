/** The benches (native/src/tls_handshake_bench.c, native/src/mldsa_bench.c). */
module Producer {
  import opened Wrappers
  import opened Sorting
  import opened Prng
  import opened RawRecords

  const MLDSA65 := "ML-DSA-65"
  const MLDSA87 := "ML-DSA-87"

  function Algorithm(key: nat): string {
    if key == 0 then MLDSA65 else MLDSA87
  }

  function TlsCases(groups: seq<string>): seq<Case> {
    seq(|groups|, i requires 0 <= i < |groups| => TlsCase(groups[i]))
  }

  /** Case `id` uses key `id / m` and message size `id % m`. */
  function MldsaCaseOf(sizes: seq<int>, id: nat): (c: Case)
    requires sizes != [] && id < 2 * |sizes|
    ensures c == if id < |sizes| then MldsaCase(MLDSA65, sizes[id]) else MldsaCase(MLDSA87, sizes[id - |sizes|])
  {
    Decoding(id, |sizes|);
    MldsaCase(Algorithm(id / |sizes|), sizes[id % |sizes|])
  }

  function MldsaCases(sizes: seq<int>): seq<Case>
    requires sizes != []
  {
    seq(2 * |sizes|, id requires 0 <= id < 2 * |sizes| => MldsaCaseOf(sizes, id))
  }

  lemma Decoding(id: nat, m: nat)
    requires m > 0 && id < 2 * m
    ensures id / m == (if id < m then 0 else 1) && id % m == (if id < m then id else id - m)
  {
  }

  /** The decoding runs through all pairs of an algorithm and a size, each once
      if no size is repeated. */
  lemma MldsaCasesAreThePairs(sizes: seq<int>)
    requires sizes != []
    ensures forall c :: c in MldsaCases(sizes) <==>
              c.MldsaCase? && (c.algorithm == MLDSA65 || c.algorithm == MLDSA87) && c.messageSize in sizes
    ensures Distinct(MldsaCases(sizes)) <==> Distinct(sizes)
  {
    var m, cases := |sizes|, MldsaCases(sizes);
    forall c | c in cases
      ensures c.MldsaCase? && (c.algorithm == MLDSA65 || c.algorithm == MLDSA87) && c.messageSize in sizes
    {
      var id :| 0 <= id < |cases| && cases[id] == c;
    }
    forall a, size | (a == MLDSA65 || a == MLDSA87) && size in sizes ensures MldsaCase(a, size) in cases {
      var i :| 0 <= i < m && sizes[i] == size;
      assert cases[if a == MLDSA65 then i else m + i] == MldsaCase(a, size);
    }
    if Distinct(cases) {
      forall i, j | 0 <= i < j < m ensures sizes[i] != sizes[j] { assert cases[i] != cases[j]; }
    }
  }

  // Emission.

  function ItemsAt(cases: seq<Case>, order: seq<nat>): seq<Case>
    requires forall k :: 0 <= k < |order| ==> order[k] < |cases|
  {
    seq(|order|, k requires 0 <= k < |order| => cases[order[k]])
  }

  lemma ItemsWithout(cases: seq<Case>, order: seq<nat>, k: nat, rest: seq<nat>)
    requires k < |order| && rest == order[..k] + order[k+1..] && forall i :: 0 <= i < |order| ==> order[i] < |cases|
    ensures forall i :: 0 <= i < |rest| ==> rest[i] < |cases|
    ensures multiset(ItemsAt(cases, order)) == multiset(ItemsAt(cases, rest)) + multiset{cases[order[k]]}
  {
    var items := ItemsAt(cases, order);
    assert ItemsAt(cases, rest) == items[..k] + items[k+1..];
    assert items == items[..k] + [items[k]] + items[k+1..];
  }

  /** Reordering the indexes reorders the items. */
  lemma {:induction false} ReorderedItems(cases: seq<Case>, a: seq<nat>, b: seq<nat>)
    requires multiset(a) == multiset(b)
    requires (forall k :: 0 <= k < |a| ==> a[k] < |cases|) && forall k :: 0 <= k < |b| ==> b[k] < |cases|
    ensures multiset(ItemsAt(cases, a)) == multiset(ItemsAt(cases, b))
    decreases |a|
  {
    MembersOfPermutation(a, b);
    if a != [] {
      assert a[0] in b;
      var k :| 0 <= k < |b| && b[k] == a[0];
      WithoutPosition(a, 0);
      WithoutPosition(b, k);
      var restA, restB := a[..0] + a[1..], b[..k] + b[k+1..];
      ItemsWithout(cases, a, 0, restA);
      ItemsWithout(cases, b, k, restB);
      ReorderedItems(cases, restA, restB);
    }
  }

  method IdentityOrder(order: array<nat>)
    modifies order
    ensures forall i :: 0 <= i < order.Length ==> order[i] == i
  {
    for i := 0 to order.Length
      invariant forall k :: 0 <= k < i ==> order[k] == k
    {
      order[i] := i;
    }
  }

  /** The order in which the cases of one block are run. */
  method ShuffledOrder(order: array<nat>, rng: Rng, ghost cases: seq<Case>)
    requires order.Length == |cases|
    modifies order, rng
    ensures forall k :: 0 <= k < order.Length ==> order[k] < |cases|
    ensures multiset(ItemsAt(cases, order[..])) == multiset(cases)
    ensures rng.state == 0 <==> old(rng.state) == 0
  {
    IdentityOrder(order);
    ghost var identity := order[..];
    ShuffledPermutes(identity, if order.Length < 2 then 0 else order.Length - 1, rng.state);
    Shuffle(order, rng);
    ghost var shuffled := order[..];
    MembersOfPermutation(shuffled, identity);
    forall k | 0 <= k < order.Length ensures order[k] < |cases| { assert shuffled[k] in identity; }
    ReorderedItems(cases, shuffled, identity);
    assert ItemsAt(cases, identity) == cases;
  }

  lemma {:induction false} BlockOfAppend(records: seq<Record>, more: seq<Record>, block: int)
    ensures CasesInBlock(records + more, block) == CasesInBlock(records, block) + CasesInBlock(more, block)
  {
    if more == [] {
      assert records + more == records;
    } else {
      assert (records + more)[..|records + more| - 1] == records + more[..|more|-1];
      BlockOfAppend(records, more[..|more|-1], block);
    }
  }

  /** One block as written: consecutive sequence numbers from `first`, every
      listed case as often as it is listed. */
  ghost predicate BlockWritten(more: seq<Record>, cases: seq<Case>, block: nat, first: nat) {
    && |more| == |cases|
    && (forall k :: 0 <= k < |more| ==>
         more[k].sequence == Some(first + k) && more[k].block == block && more[k].item in cases)
    && multiset(CasesInBlock(more, block)) == multiset(cases)
  }

  /** What the benches write: blocks 0, 1, ..., one after the other. */
  ghost predicate Emitted(records: seq<Record>, cases: seq<Case>, repetitions: nat)
    decreases repetitions
  {
    if repetitions == 0 then records == []
    else
      var before := |records| - |cases|;
      && before >= 0
      && Emitted(records[..before], cases, repetitions - 1)
      && BlockWritten(records[before..], cases, repetitions - 1, before)
  }

  lemma {:induction false} ForeignBlock(records: seq<Record>, block: int)
    requires forall k :: 0 <= k < |records| ==> records[k].block != block
    ensures CasesInBlock(records, block) == []
  {
    if records != [] { ForeignBlock(records[..|records|-1], block); }
  }

  /** One block: every position of the shuffled order is measured and written. */
  method EmitBlock(cases: seq<Case>, order: array<nat>, block: nat, first: nat, succeeds: (nat, Case) -> bool)
      returns (records: seq<Record>, ok: bool)
    requires order.Length == |cases| && forall k :: 0 <= k < order.Length ==> order[k] < |cases|
    ensures |records| == |cases|
    ensures forall k :: 0 <= k < |records| ==>
              records[k].sequence == Some(first + k) && records[k].block == block && records[k].item in cases
    ensures CasesInBlock(records, block) == ItemsAt(cases, order[..])
    ensures ok <==> AllSuccessful(records)
  {
    records, ok := [], true;
    for pos := 0 to order.Length
      invariant |records| == pos
      invariant forall k :: 0 <= k < pos ==>
                  records[k].sequence == Some(first + k) && records[k].block == block && records[k].item in cases
      invariant CasesInBlock(records, block) == ItemsAt(cases, order[..pos])
      invariant ok <==> AllSuccessful(records)
    {
      var item := cases[order[pos]];
      var success := succeeds(first + pos, item);
      ghost var before := records;
      records := records + [Record(Some(first + pos), block, item, success)];
      assert records[..|records|-1] == before;
      assert order[..pos+1] == order[..pos] + [order[pos]];
      assert ItemsAt(cases, order[..pos+1]) == ItemsAt(cases, order[..pos]) + [item];
      if !success {
        ok := false;
        assert !records[pos].success;
      }
    }
    assert order[..order.Length] == order[..];
  }

  method RunBlock(cases: seq<Case>, order: array<nat>, rng: Rng, block: nat, first: nat, succeeds: (nat, Case) -> bool)
      returns (records: seq<Record>, ok: bool)
    requires order.Length == |cases|
    modifies order, rng
    ensures BlockWritten(records, cases, block, first)
    ensures ok <==> AllSuccessful(records)
    ensures rng.state == 0 <==> old(rng.state) == 0
  {
    ShuffledOrder(order, rng, cases);
    records, ok := EmitBlock(cases, order, block, first, succeeds);
  }

  /** What goes well around the blocks: reading the arguments, keys and warm-ups, opening the
      output, allocating the order, closing the output, and writing the metadata. */
  datatype Environment = Environment(parses: bool, warmsUp: bool, opens: bool, allocates: bool, closes: bool, describes: bool) {
    predicate Starts() { parses && warmsUp && opens && allocates }
  }

  method RunBench(cases: seq<Case>, repetitions: nat, seed: bv64, succeeds: (nat, Case) -> bool, env: Environment)
      returns (records: seq<Record>, exitCode: int)
    requires cases != []
    ensures if env.Starts() then Emitted(records, cases, repetitions) else records == []
    ensures exitCode == 0 <==> env.Starts() && AllSuccessful(records) && env.closes && env.describes
    ensures exitCode == 2 <==> !env.parses
  {
    if !env.parses {
      return [], 2;
    }
    if !env.warmsUp || !env.opens || !env.allocates {
      return [], 1;
    }
    records, exitCode := WriteBlocks(cases, repetitions, seed, succeeds);
    if !env.closes {
      exitCode := 1;
    }
    if !env.describes {
      exitCode := 1;
    }
  }

  /** The measured blocks. */
  method WriteBlocks(cases: seq<Case>, repetitions: nat, seed: bv64, succeeds: (nat, Case) -> bool)
      returns (records: seq<Record>, exitCode: int)
    ensures Emitted(records, cases, repetitions)
    ensures exitCode == if AllSuccessful(records) then 0 else 1
  {
    var order := new nat[|cases|];
    var rng := new Rng(if seed == 0 then 1 else seed);
    records, exitCode := [], 0;
    for block := 0 to repetitions
      invariant Emitted(records, cases, block)
      invariant exitCode == if AllSuccessful(records) then 0 else 1
      invariant rng.state != 0
    {
      var emitted, ok := RunBlock(cases, order, rng, block, |records|, succeeds);
      AppendBlock(records, emitted, cases, block);
      records := records + emitted;
      if !ok {
        exitCode := 1;
      }
    }
  }

  lemma AppendBlock(records: seq<Record>, more: seq<Record>, cases: seq<Case>, block: nat)
    requires Emitted(records, cases, block) && BlockWritten(more, cases, block, |records|)
    ensures Emitted(records + more, cases, block + 1)
    ensures AllSuccessful(records + more) <==> AllSuccessful(records) && AllSuccessful(more)
  {
    var all := records + more;
    assert all[..|records|] == records && all[|records|..] == more;
    SuccessOfAppend(records, more);
  }

  lemma SuccessOfAppend(records: seq<Record>, more: seq<Record>)
    ensures AllSuccessful(records + more) <==> AllSuccessful(records) && AllSuccessful(more)
  {
    var all := records + more;
    if AllSuccessful(all) {
      forall k | 0 <= k < |records| ensures records[k].success { assert all[k].success; }
      forall k | 0 <= k < |more| ensures more[k].success { assert all[|records| + k].success; }
    }
  }

  /** Sequence numbers run without a gap over all blocks. */
  lemma {:induction false} EmittedFields(records: seq<Record>, cases: seq<Case>, repetitions: nat)
    requires Emitted(records, cases, repetitions)
    ensures |records| == repetitions * |cases|
    ensures forall k :: 0 <= k < |records| ==>
              records[k].sequence == Some(k) && 0 <= records[k].block < repetitions && records[k].item in cases
    decreases repetitions
  {
    if repetitions == 0 {
      assert repetitions * |cases| == 0;
    } else {
      var before := |records| - |cases|;
      var earlier, more := records[..before], records[before..];
      EmittedFields(earlier, cases, repetitions - 1);
      assert repetitions * |cases| == (repetitions - 1) * |cases| + |cases|;
      forall k | 0 <= k < |records|
        ensures records[k].sequence == Some(k) && 0 <= records[k].block < repetitions && records[k].item in cases
      {
        if k < before { assert records[k] == earlier[k]; } else { assert records[k] == more[k - before]; }
      }
    }
  }

  /** Every block holds every listed case. */
  lemma {:induction false} EmittedBlocks(records: seq<Record>, cases: seq<Case>, repetitions: nat, b: nat)
    requires Emitted(records, cases, repetitions) && b < repetitions
    ensures multiset(CasesInBlock(records, b)) == multiset(cases)
    decreases repetitions, 0
  {
    var earlier, more := LastBlock(records, cases, repetitions);
    EmittedAndOneMore(earlier, more, cases, repetitions - 1, b);
  }

  lemma {:induction false} EmittedAndOneMore(earlier: seq<Record>, more: seq<Record>, cases: seq<Case>, repetitions: nat, b: nat)
    requires Emitted(earlier, cases, repetitions) && BlockWritten(more, cases, repetitions, |earlier|) && b <= repetitions
    ensures multiset(CasesInBlock(earlier + more, b)) == multiset(cases)
    decreases repetitions, 1
  {
    OnlyBlock(more, cases, repetitions, |earlier|, b);
    if b < repetitions {
      EmittedBlocks(earlier, cases, repetitions, b);
    } else {
      NoLaterBlock(earlier, cases, repetitions, b);
    }
    InOneOfTwo(earlier, more, cases, b);
  }

  lemma LastBlock(records: seq<Record>, cases: seq<Case>, repetitions: nat) returns (earlier: seq<Record>, more: seq<Record>)
    requires Emitted(records, cases, repetitions) && repetitions > 0
    ensures records == earlier + more && Emitted(earlier, cases, repetitions - 1)
    ensures BlockWritten(more, cases, repetitions - 1, |earlier|)
  {
    var before := |records| - |cases|;
    earlier, more := records[..before], records[before..];
  }

  lemma InOneOfTwo(earlier: seq<Record>, more: seq<Record>, cases: seq<Case>, b: int)
    requires (CasesInBlock(more, b) == [] && multiset(CasesInBlock(earlier, b)) == multiset(cases))
          || (CasesInBlock(earlier, b) == [] && multiset(CasesInBlock(more, b)) == multiset(cases))
    ensures multiset(CasesInBlock(earlier + more, b)) == multiset(cases)
  {
    BlockOfAppend(earlier, more, b);
  }

  lemma OnlyBlock(more: seq<Record>, cases: seq<Case>, block: nat, first: nat, b: nat)
    requires BlockWritten(more, cases, block, first)
    ensures if b == block then multiset(CasesInBlock(more, b)) == multiset(cases) else CasesInBlock(more, b) == []
  {
    if b != block { ForeignBlock(more, b); }
  }

  lemma NoLaterBlock(records: seq<Record>, cases: seq<Case>, repetitions: nat, b: nat)
    requires Emitted(records, cases, repetitions) && repetitions <= b
    ensures CasesInBlock(records, b) == []
  {
    EmittedFields(records, cases, repetitions);
    ForeignBlock(records, b);
  }

  lemma CasesOfFirstBlock(records: seq<Record>, cases: seq<Case>)
    requires multiset(CasesInBlock(records, 0)) == multiset(cases)
    ensures forall c :: c in cases ==> exists k :: 0 <= k < |records| && records[k].item == c
  {
    MembersOfPermutation(CasesInBlock(records, 0), cases);
    forall c | c in cases ensures exists k :: 0 <= k < |records| && records[k].item == c {
      var k := FindInBlock(records, 0, c);
    }
  }

  /** The validator's counting checks accept what the benches write exactly when
      there is a block to measure and no case is listed twice. */
  lemma ProducerMeetsValidator(records: seq<Record>, cases: seq<Case>, repetitions: nat)
    requires Emitted(records, cases, repetitions) && cases != []
    ensures CountsValid(records, cases, repetitions) <==> repetitions > 0 && Distinct(cases)
  {
    EmittedFields(records, cases, repetitions);
    EmittedIsContiguous(records);
    if repetitions > 0 {
      EmittedIsBalanced(records, cases, repetitions);
      EmittedBlocks(records, cases, repetitions, 0);
      CasesOfFirstBlock(records, cases);
      assert Balanced(records, CaseSet(cases), 0) <==> Distinct(cases);
    } else {
      assert cases[0] in cases;
    }
  }

  lemma EmittedIsContiguous(records: seq<Record>)
    requires forall k :: 0 <= k < |records| ==> records[k].sequence == Some(k)
    ensures Contiguous(records)
  {
    assert Sequences(records) == Range(|records|);
  }

  lemma EmittedIsBalanced(records: seq<Record>, cases: seq<Case>, repetitions: nat)
    requires Emitted(records, cases, repetitions)
    ensures forall b :: 0 <= b < repetitions ==> (Balanced(records, CaseSet(cases), b) <==> Distinct(cases))
  {
    SetCountsList(cases);
    forall b | 0 <= b < repetitions ensures Balanced(records, CaseSet(cases), b) <==> Distinct(cases) {
      EmittedBlocks(records, cases, repetitions, b);
    }
  }
}
