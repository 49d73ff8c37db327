/** Pairing the TLS records of one replicate by block
    (scripts/analyze_paired_crypto_costs.py). */
module Pairing {
  import opened Wrappers
  import opened Sorting
  import opened RawRecords
  import opened Producer

  datatype PairError = GroupsDiffer | Unbalanced(block: nat) | Unsuccessful(block: nat)

  datatype PairedBlock = PairedBlock(block: int, recordsByProfile: map<string, Record>)

  /** The records of a block, in file order. */
  function RecordsInBlock(records: seq<Record>, block: int): seq<Record> {
    if records == [] then []
    else
      var last := records[|records|-1];
      RecordsInBlock(records[..|records|-1], block) + if last.block == block then [last] else []
  }

  function Items(records: seq<Record>): seq<Case> {
    seq(|records|, k requires 0 <= k < |records| => records[k].item)
  }

  lemma {:induction false} BlockItems(records: seq<Record>, block: int)
    ensures Items(RecordsInBlock(records, block)) == CasesInBlock(records, block)
    ensures forall r :: r in RecordsInBlock(records, block) <==> r in records && r.block == block
  {
    if records != [] {
      var front, last := records[..|records|-1], records[|records|-1];
      BlockItems(front, block);
      assert records == front + [last];
      var before := RecordsInBlock(front, block);
      assert Items(before + [last]) == Items(before) + [last.item];
    }
  }

  lemma RecordsInBlockNext(records: seq<Record>, k: nat)
    requires k < |records|
    ensures RecordsInBlock(records[..k+1], records[k].block) == RecordsInBlock(records[..k], records[k].block) + [records[k]]
    ensures forall b :: b != records[k].block ==> RecordsInBlock(records[..k+1], b) == RecordsInBlock(records[..k], b)
  {
    assert records[..k+1][..k] == records[..k];
  }

  method GroupByBlock(records: seq<Record>) returns (byBlock: map<int, seq<Record>>)
    ensures forall b :: b in byBlock ==> byBlock[b] == RecordsInBlock(records, b)
    ensures forall b :: b !in byBlock ==> RecordsInBlock(records, b) == []
  {
    byBlock := map[];
    for k := 0 to |records|
      invariant forall b :: b in byBlock ==> byBlock[b] == RecordsInBlock(records[..k], b)
      invariant forall b :: b !in byBlock ==> RecordsInBlock(records[..k], b) == []
    {
      var block := records[k].block;
      RecordsInBlockNext(records, k);
      var earlier := if block in byBlock then byBlock[block] else [];
      byBlock := byBlock[block := earlier + [records[k]]];
    }
    assert records[..|records|] == records;
  }

  ghost predicate Injective(m: map<string, string>) {
    forall x, y :: x in m && y in m && m[x] == m[y] ==> x == y
  }

  /** The block holds one successful record of every group, filed under its profile. */
  ghost predicate CompleteBlock(records: seq<Record>, profileOf: map<string, string>, block: nat, p: PairedBlock) {
    && p.block == block
    && (forall profile :: profile in p.recordsByProfile <==> profile in profileOf.Values)
    && forall g :: g in profileOf ==>
         profileOf[g] in p.recordsByProfile && FiledRecord(records, block, g, p.recordsByProfile[profileOf[g]])
  }

  ghost predicate FiledRecord(records: seq<Record>, block: nat, g: string, r: Record) {
    r in records && r.block == block && r.item == TlsCase(g) && r.success
  }

  /** What a block must be like to be paired. */
  ghost predicate Pairable(records: seq<Record>, expected: set<Case>, block: nat) {
    Balanced(records, expected, block) && forall k :: 0 <= k < |records| && records[k].block == block ==> records[k].success
  }

  /** Files the records of a block under their profiles; an unsuccessful one stops it. */
  method FileByProfile(block: nat, found: seq<Record>, profileOf: map<string, string>) returns (r: Result<map<string, Record>, PairError>)
    requires forall k :: 0 <= k < |found| ==> found[k].item.TlsCase? && found[k].item.group in profileOf
    ensures r.Ok? <==> forall i :: 0 <= i < |found| ==> found[i].success
    ensures r.Err? ==> r.error == Unsuccessful(block)
    ensures r.Ok? ==> forall profile :: profile in r.value ==>
              r.value[profile] in found && profileOf[r.value[profile].item.group] == profile
    ensures r.Ok? ==> forall i :: 0 <= i < |found| ==> profileOf[found[i].item.group] in r.value
  {
    var byProfile: map<string, Record> := map[];
    for k := 0 to |found|
      invariant forall i :: 0 <= i < k ==> found[i].success && profileOf[found[i].item.group] in byProfile
      invariant forall profile :: profile in byProfile ==>
                  byProfile[profile] in found && profileOf[byProfile[profile].item.group] == profile
    {
      if !found[k].success {
        return Err(Unsuccessful(block));
      }
      assert found[k] in found;
      byProfile := byProfile[profileOf[found[k].item.group] := found[k]];
    }
    return Ok(byProfile);
  }

  method PairBlock(block: nat, found: seq<Record>, ghost records: seq<Record>, expected: set<Case>, profileOf: map<string, string>)
      returns (r: Result<PairedBlock, PairError>)
    requires found == RecordsInBlock(records, block)
    requires Injective(profileOf) && expected == set g | g in profileOf :: TlsCase(g)
    ensures r.Ok? <==> Pairable(records, expected, block)
    ensures r.Ok? ==> CompleteBlock(records, profileOf, block, r.value)
    ensures r.Err? ==> r.error == if Balanced(records, expected, block) then Unsuccessful(block) else Unbalanced(block)
  {
    BlockItems(records, block);
    if multiset(Items(found)) != multiset(expected) {
      return Err(Unbalanced(block));
    }
    MembersOfCounted(Items(found), expected);
    forall r | r in found ensures r.item.TlsCase? && r.item.group in profileOf {
      var i :| 0 <= i < |found| && found[i] == r;
      assert Items(found)[i] in expected;
    }
    var filed := FileByProfile(block, found, profileOf);
    if filed.Err? {
      return Err(filed.error);
    }
    var byProfile := filed.value;
    forall k | 0 <= k < |records| && records[k].block == block ensures records[k].success {
      assert records[k] in found;
    }
    forall g | g in profileOf
      ensures profileOf[g] in byProfile && FiledRecord(records, block, g, byProfile[profileOf[g]])
    {
      assert TlsCase(g) in Items(found);
      var i :| 0 <= i < |found| && Items(found)[i] == TlsCase(g);
    }
    r := Ok(PairedBlock(block, byProfile));
  }

  lemma MembersOfCounted(items: seq<Case>, expected: set<Case>)
    requires multiset(items) == multiset(expected)
    ensures forall c :: c in items <==> c in expected
  {
    assert forall c :: c in items <==> c in multiset(items);
  }

  /** Pairing succeeds exactly on blocks with one successful record per group;
      after a clean validation it therefore cannot fail. */
  method PairTlsBlocks(records: seq<Record>, groups: seq<string>, profileOf: map<string, string>, blocks: nat)
      returns (r: Result<seq<PairedBlock>, PairError>)
    requires Injective(profileOf)
    ensures r.Ok? <==> (set g | g in groups) == profileOf.Keys
                       && forall b :: 0 <= b < blocks ==> Pairable(records, CaseSet(TlsCases(groups)), b)
    ensures r.Ok? ==> |r.value| == blocks && forall b :: 0 <= b < blocks ==> CompleteBlock(records, profileOf, b, r.value[b])
  {
    if (set g | g in groups) != profileOf.Keys {
      return Err(GroupsDiffer);
    }
    var expected := set g | g in profileOf :: TlsCase(g);
    SameCases(groups, profileOf, expected);
    r := PairBlocks(records, expected, profileOf, blocks);
  }

  ghost function Accepts(records: seq<Record>, expected: set<Case>): nat -> bool {
    (b: nat) => Pairable(records, expected, b)
  }

  ghost function Makes(records: seq<Record>, profileOf: map<string, string>): (nat, PairedBlock) -> bool {
    (b: nat, p: PairedBlock) => CompleteBlock(records, profileOf, b, p)
  }

  /** The loop over the blocks. */
  method PairBlocks(records: seq<Record>, expected: set<Case>, profileOf: map<string, string>, blocks: nat)
      returns (r: Result<seq<PairedBlock>, PairError>)
    requires Injective(profileOf) && expected == set g | g in profileOf :: TlsCase(g)
    ensures r.Ok? <==> forall b: nat :: b < blocks ==> Pairable(records, expected, b)
    ensures r.Ok? ==> |r.value| == blocks && forall b: nat :: b < blocks ==> CompleteBlock(records, profileOf, b, r.value[b])
  {
    ghost var pairable, complete := Accepts(records, expected), Makes(records, profileOf);
    var byBlock := GroupByBlock(records);
    var paired: seq<PairedBlock> := [];
    for block := 0 to blocks
      invariant |paired| == block
      invariant forall b: nat :: b < block ==> pairable(b) && complete(b, paired[b])
    {
      var one := PairOne(records, byBlock, expected, profileOf, block);
      assert one.Ok? <==> pairable(block);
      if one.Err? {
        return Err(one.error);
      }
      assert complete(block, one.value);
      paired := paired + [one.value];
    }
    assert forall b: nat :: pairable(b) <==> Pairable(records, expected, b);
    forall b: nat | b < blocks ensures CompleteBlock(records, profileOf, b, paired[b]) {
      assert complete(b, paired[b]);
    }
    r := Ok(paired);
  }

  method PairOne(ghost records: seq<Record>, byBlock: map<int, seq<Record>>, expected: set<Case>, profileOf: map<string, string>,
                 block: nat) returns (r: Result<PairedBlock, PairError>)
    requires Injective(profileOf) && expected == set g | g in profileOf :: TlsCase(g)
    requires forall b :: b in byBlock ==> byBlock[b] == RecordsInBlock(records, b)
    requires forall b :: b !in byBlock ==> RecordsInBlock(records, b) == []
    ensures r.Ok? <==> Pairable(records, expected, block)
    ensures r.Ok? ==> CompleteBlock(records, profileOf, block, r.value)
  {
    var found := if block in byBlock then byBlock[block] else [];
    r := PairBlock(block, found, records, expected, profileOf);
  }

  /** After a clean validation with successful records only, every block can be paired. */
  lemma ValidatedBlocksArePairable(records: seq<Record>, groups: seq<string>, blocks: nat)
    requires CountsValid(records, TlsCases(groups), blocks) && AllSuccessful(records)
    ensures forall b :: 0 <= b < blocks ==> Pairable(records, CaseSet(TlsCases(groups)), b)
  {
    forall b | 0 <= b < blocks ensures Pairable(records, CaseSet(TlsCases(groups)), b) {
      assert Balanced(records, CaseSet(TlsCases(groups)), b);
    }
  }

  lemma SameCases(groups: seq<string>, profileOf: map<string, string>, expected: set<Case>)
    requires (set g | g in groups) == profileOf.Keys && expected == set g | g in profileOf :: TlsCase(g)
    ensures CaseSet(TlsCases(groups)) == expected
  {
    var cases := TlsCases(groups);
    forall c ensures c in cases <==> c in expected {
      if c in cases {
        var i :| 0 <= i < |cases| && cases[i] == c;
        assert groups[i] in groups;
        assert groups[i] in profileOf;
      }
      if c in expected {
        var g :| g in profileOf && TlsCase(g) == c;
        assert g in groups;
        var i :| 0 <= i < |groups| && groups[i] == g;
        assert cases[i] == c;
      }
    }
  }

  /** After a clean validation no record is lost: each is the one filed under
      its block and its profile. */
  lemma PairingIsLossless(records: seq<Record>, groups: seq<string>, profileOf: map<string, string>, blocks: nat,
                          paired: seq<PairedBlock>, k: nat)
    requires Distinct(groups) && (set g | g in groups) == profileOf.Keys
    requires CountsValid(records, TlsCases(groups), blocks) && k < |records|
    requires |paired| == blocks && forall b :: 0 <= b < blocks ==> CompleteBlock(records, profileOf, b, paired[b])
    ensures 0 <= records[k].block < blocks && records[k].item.TlsCase? && records[k].item.group in profileOf
    ensures profileOf[records[k].item.group] in paired[records[k].block].recordsByProfile
    ensures paired[records[k].block].recordsByProfile[profileOf[records[k].item.group]] == records[k]
  {
    var cases := TlsCases(groups);
    assert Distinct(cases);
    NoRecordOutsideBlocks(records, cases, blocks);
    var b, c := records[k].block, records[k].item;
    assert c in cases;
    var i :| 0 <= i < |cases| && cases[i] == c;
    assert groups[i] in groups;
    assert groups[i] in profileOf;
    var filed := paired[b].recordsByProfile[profileOf[c.group]];
    assert FiledRecord(records, b, c.group, filed);
    var n :| 0 <= n < |records| && records[n] == filed;
    var only := EachPairOnce(records, cases, blocks, b, c);
  }
}
