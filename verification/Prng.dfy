/** The generator of the benches, a step of shifts and exclusive ors on a 64-bit
    state with a multiplied output, and the shuffle that draws from it, on an
    array that is permuted in place (native/src/bench_common.c). */
module Prng {

  function XorRight12(x: bv64): bv64 { x ^ (x >> 12) }

  function XorLeft25(x: bv64): bv64 { x ^ (x << 25) }

  function XorRight27(x: bv64): bv64 { x ^ (x >> 27) }

  function NextState(x: bv64): bv64 {
    XorRight27(XorLeft25(XorRight12(x)))
  }

  function Output(state: bv64): bv64 {
    state * 2685821657736338717
  }

  // The inverses of the three steps.

  function UndoRight12(y: bv64): bv64 { y ^ (y >> 12) ^ (y >> 24) ^ (y >> 36) ^ (y >> 48) ^ (y >> 60) }

  function UndoLeft25(y: bv64): bv64 { y ^ (y << 25) ^ (y << 50) }

  function UndoRight27(y: bv64): bv64 { y ^ (y >> 27) ^ (y >> 54) }

  function PreviousState(y: bv64): bv64 {
    UndoRight12(UndoLeft25(UndoRight27(y)))
  }

  lemma ShiftsCancel(x: bv64)
    ensures UndoRight12(x ^ (x >> 12)) == x
    ensures UndoLeft25(x ^ (x << 25)) == x
    ensures UndoRight27(x ^ (x >> 27)) == x
  {
  }

  lemma StepsUndone(x: bv64)
    ensures UndoRight12(XorRight12(x)) == x
    ensures UndoLeft25(XorLeft25(x)) == x
    ensures UndoRight27(XorRight27(x)) == x
  {
    ShiftsCancel(x);
  }

  /** The state map has an inverse, so no two states ever merge. */
  lemma StateRoundTrip(x: bv64)
    ensures PreviousState(NextState(x)) == x
  {
    StepsUndone(x);
    StepsUndone(XorRight12(x));
    StepsUndone(XorLeft25(XorRight12(x)));
  }

  /** A nonzero state stays nonzero. */
  lemma NonzeroStaysNonzero(x: bv64)
    ensures NextState(x) == 0 <==> x == 0
  {
    StateRoundTrip(x);
    StateRoundTrip(0);
  }

  class Rng {
    var state: bv64

    constructor (seed: bv64)
      ensures state == seed
    {
      state := seed;
    }

    method Next() returns (v: bv64)
      modifies this
      ensures state == NextState(old(state)) && v == Output(state)
      ensures state == 0 <==> old(state) == 0
    {
      NonzeroStaysNonzero(state);
      var x := state;
      x := XorRight12(x);
      x := XorLeft25(x);
      x := XorRight27(x);
      state := x;
      v := Output(x);
    }
  }

  // The shuffle.

  function Swap(s: seq<nat>, i: nat, j: nat): (t: seq<nat>)
    requires i < |s| && j < |s|
    ensures |t| == |s|
  {
    s[i := s[j]][j := s[i]]
  }

  /** A draw below `bound`, from the state it leaves. */
  function Draw(state: bv64, bound: nat): nat
    requires bound > 0
  {
    (Output(state) as nat) % bound
  }

  method SwapInPlace(values: array<nat>, i: nat, j: nat)
    requires i < values.Length && j < values.Length
    modifies values
    ensures values[..] == Swap(old(values[..]), i, j)
  {
    var tmp := values[i];
    values[i] := values[j];
    values[j] := tmp;
  }

  /** A Fisher-Yates pass over positions `last..1`, each draw reduced modulo `i + 1`. */
  function Shuffled(s: seq<nat>, last: nat, state: bv64): (t: seq<nat>)
    requires last < |s| || last == 0
    ensures |t| == |s|
    decreases last
  {
    if last == 0 then s
    else
      var next := NextState(state);
      Shuffled(Swap(s, last, Draw(next, last + 1)), last - 1, next)
  }

  /** Whatever the generator draws, the shuffle is a permutation. */
  lemma {:induction false} ShuffledPermutes(s: seq<nat>, last: nat, state: bv64)
    requires last < |s| || last == 0
    ensures multiset(Shuffled(s, last, state)) == multiset(s)
    decreases last
  {
    if last > 0 {
      var next := NextState(state);
      var j := Draw(next, last + 1);
      ShuffledPermutes(Swap(s, last, j), last - 1, next);
    }
  }

  method Shuffle(values: array<nat>, rng: Rng)
    modifies values, rng
    ensures values[..] == Shuffled(old(values[..]), if values.Length < 2 then 0 else values.Length - 1, old(rng.state))
    ensures rng.state == 0 <==> old(rng.state) == 0
  {
    ghost var last := if values.Length < 2 then 0 else values.Length - 1;
    if values.Length < 2 {
      return;
    }
    var i := values.Length - 1;
    while i > 0
      invariant 0 <= i < values.Length
      invariant Shuffled(values[..], i, rng.state) == Shuffled(old(values[..]), last, old(rng.state))
      invariant rng.state == 0 <==> old(rng.state) == 0
      decreases i
    {
      var v := rng.Next();
      var j := (v as nat) % (i + 1);
      SwapInPlace(values, i, j);
      i := i - 1;
    }
  }
}
