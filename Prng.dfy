// The xorshift generator that feeds the magic-number search: a 32-bit state, a 64-bit value built
// from four 16-bit lanes, and a sparse candidate that ANDs three such values.

module Prng {

  /** The generator's state as the program starts. */
  const InitialSeed: bv32 := 1804289383

  /** One xorshift step on the unsigned 32-bit state: XOR in the state shifted left by 13, then
      the result shifted right by 17, then that result shifted left by 5. */
  function Step(x: bv32): bv32 {
    ShiftXor5(ShiftXor17(ShiftXor13(x)))
  }

  /** The three statements `number ^= number << 13`, `number ^= number >> 17`, `number ^= number << 5`. */
  function ShiftXor13(x: bv32): bv32 { x ^ (x << 13) }
  function ShiftXor17(x: bv32): bv32 { x ^ (x >> 17) }
  function ShiftXor5(x: bv32): bv32 { x ^ (x << 5) }

  /** The state after k steps from seed. */
  function Iterate(seed: bv32, k: nat): bv32
    decreases k
  {
    if k == 0 then seed else Iterate(Step(seed), k - 1)
  }

  /** The k numbers the generator returns, one per step, starting from seed. */
  function Draws(seed: bv32, k: nat): (ds: seq<bv32>)
    ensures |ds| == k
    decreases k
  {
    if k == 0 then [] else [Step(seed)] + Draws(Step(seed), k - 1)
  }

  /** Drawing j numbers and then k more is drawing j + k numbers; the state moves on the same way. */
  lemma {:induction false} DrawsAppend(seed: bv32, j: nat, k: nat)
    ensures Draws(seed, j + k) == Draws(seed, j) + Draws(Iterate(seed, j), k)
    ensures Iterate(seed, j + k) == Iterate(Iterate(seed, j), k)
    decreases j
  {
    if j > 0 {
      DrawsAppend(Step(seed), j - 1, k);
      assert j + k - 1 == (j - 1) + k;
    }
  }

  /** The first j of j + k draws are j draws; the rest are k draws from where those stopped. */
  lemma DrawsSplit(seed: bv32, j: nat, k: nat)
    ensures Draws(seed, j + k)[..j] == Draws(seed, j)
    ensures Draws(seed, j + k)[j..] == Draws(Iterate(seed, j), k)
    ensures Iterate(seed, j + k) == Iterate(Iterate(seed, j), k)
  {
    DrawsAppend(seed, j, k);
  }

  /** Every number drawn is the state reached at that point. */
  lemma {:induction false} DrawIsState(seed: bv32, k: nat, i: nat)
    requires i < k
    ensures Draws(seed, k)[i] == Iterate(seed, i + 1)
    decreases k
  {
    if i > 0 {
      DrawIsState(Step(seed), k - 1, i - 1);
    }
  }

  /** The low 16 bits of a draw, widened to 64 bits. */
  function Lane(d: bv32): bv64 {
    (d as bv64) & 0xFFFF
  }

  /** getRandomU64Number's result: four lanes at bits 0, 16, 32 and 48. */
  function Assemble(ds: seq<bv32>): bv64
    requires |ds| == 4
  {
    Combine(Lane(ds[0]), Lane(ds[1]), Lane(ds[2]), Lane(ds[3]))
  }

  function Combine(a: bv64, b: bv64, c: bv64, d: bv64): bv64 {
    a | (b << 16) | (c << 32) | (d << 48)
  }

  /** Bits 16k to 16k + 15 of v, moved down to bits 0 to 15. */
  function LaneOf(v: bv64, k: nat): bv64
    requires k < 4
  {
    if k == 0 then v & 0xFFFF
    else if k == 1 then (v >> 16) & 0xFFFF
    else if k == 2 then (v >> 32) & 0xFFFF
    else (v >> 48) & 0xFFFF
  }

  lemma LaneSmall(d: bv32)
    ensures Lane(d) <= 0xFFFF
  {}

  lemma CombineLane0(a: bv64, b: bv64, c: bv64, d: bv64)
    requires a <= 0xFFFF && b <= 0xFFFF && c <= 0xFFFF && d <= 0xFFFF
    ensures LaneOf(Combine(a, b, c, d), 0) == a
  {}

  lemma CombineLane1(a: bv64, b: bv64, c: bv64, d: bv64)
    requires a <= 0xFFFF && b <= 0xFFFF && c <= 0xFFFF && d <= 0xFFFF
    ensures LaneOf(Combine(a, b, c, d), 1) == b
  {}

  lemma CombineLane2(a: bv64, b: bv64, c: bv64, d: bv64)
    requires a <= 0xFFFF && b <= 0xFFFF && c <= 0xFFFF && d <= 0xFFFF
    ensures LaneOf(Combine(a, b, c, d), 2) == c
  {}

  lemma CombineLane3(a: bv64, b: bv64, c: bv64, d: bv64)
    requires a <= 0xFFFF && b <= 0xFFFF && c <= 0xFFFF && d <= 0xFFFF
    ensures LaneOf(Combine(a, b, c, d), 3) == d
  {}

  /** Each 16-bit lane of the assembled value is the low 16 bits of the corresponding draw. */
  lemma AssembleLanes(ds: seq<bv32>, k: nat)
    requires |ds| == 4 && k < 4
    ensures LaneOf(Assemble(ds), k) == Lane(ds[k])
  {
    LaneSmall(ds[0]);
    LaneSmall(ds[1]);
    LaneSmall(ds[2]);
    LaneSmall(ds[3]);
    var a, b, c, d := Lane(ds[0]), Lane(ds[1]), Lane(ds[2]), Lane(ds[3]);
    if k == 0 { CombineLane0(a, b, c, d); }
    else if k == 1 { CombineLane1(a, b, c, d); }
    else if k == 2 { CombineLane2(a, b, c, d); }
    else { CombineLane3(a, b, c, d); }
  }

  /** Bits of a that are all in b. */
  predicate SubMask(a: bv64, b: bv64) { a & b == a }

  lemma AndSubMaskFirst(x: bv64, y: bv64, z: bv64)
    ensures SubMask(x & y & z, x)
  {}

  lemma AndSubMaskSecond(x: bv64, y: bv64, z: bv64)
    ensures SubMask(x & y & z, y)
  {}

  lemma AndSubMaskThird(x: bv64, y: bv64, z: bv64)
    ensures SubMask(x & y & z, z)
  {}

  /** The candidate: the AND of three assembled values, a subset of each of them. */
  function Sparse(x: bv64, y: bv64, z: bv64): (r: bv64)
    ensures SubMask(r, x) && SubMask(r, y) && SubMask(r, z)
  {
    AndSubMaskFirst(x, y, z);
    AndSubMaskSecond(x, y, z);
    AndSubMaskThird(x, y, z);
    x & y & z
  }

  /** The candidate drawn from state s consumes exactly twelve draws: its three values are
      assembled from draws 1-4, 5-8 and 9-12, and the state moves on twelve steps. */
  lemma CandidateDraws(s: bv32)
    ensures var s4 := Iterate(s, 4); var s8 := Iterate(s4, 4);
      Draws(s, 12)[0..4] == Draws(s, 4) && Draws(s, 12)[4..8] == Draws(s4, 4) &&
      Draws(s, 12)[8..12] == Draws(s8, 4) && Iterate(s8, 4) == Iterate(s, 12)
  {
    var n := 4;
    DrawsSplit(s, n, n + n);
    DrawsSplit(Iterate(s, n), n, n);
    var all := Draws(s, n + n + n);
    assert all[n..n + n] == Draws(Iterate(s, n), n + n)[..n];
    assert all[n + n..n + n + n] == Draws(Iterate(s, n), n + n)[n..];
  }

  /** The generator with its global state, as getRandomU32Number, getRandomU64Number and
      generateMagicNumberCandidate use it. */
  class Xorshift {
    var seed: bv32

    constructor ()
      ensures seed == InitialSeed
    {
      seed := InitialSeed;
    }

    /** getRandomU32Number: one step, stored back as the new state and returned. */
    method NextU32() returns (number: bv32)
      modifies this
      ensures number == Step(old(seed)) && seed == number
      ensures Draws(old(seed), 1) == [number]
    {
      number := seed;
      number := ShiftXor13(number);
      number := ShiftXor17(number);
      number := ShiftXor5(number);
      seed := number;
    }

    /** getRandomU64Number: four draws, the low 16 bits of each placed in its own lane. */
    method NextU64() returns (r: bv64)
      modifies this
      ensures seed == Iterate(old(seed), 4)
      ensures r == Assemble(Draws(old(seed), 4))
    {
      ghost var start := seed;
      var d1 := NextU32();
      var n1 := Lane(d1);
      var d2 := NextU32();
      var n2 := Lane(d2);
      var d3 := NextU32();
      var n3 := Lane(d3);
      var d4 := NextU32();
      var n4 := Lane(d4);
      r := Combine(n1, n2, n3, n4);
      assert Draws(start, 4) == [d1, d2, d3, d4];
    }

    /** generateMagicNumberCandidate: three 64-bit values from three consecutive runs of four
        draws, ANDed (CandidateDraws restates this as the twelve draws from the starting state). */
    method Candidate() returns (r: bv64)
      modifies this
      ensures seed == Iterate(Iterate(Iterate(old(seed), 4), 4), 4)
      ensures r == Sparse(Assemble(Draws(old(seed), 4)), Assemble(Draws(Iterate(old(seed), 4), 4)),
                          Assemble(Draws(Iterate(Iterate(old(seed), 4), 4), 4)))
    {
      var x := NextU64();
      var y := NextU64();
      var z := NextU64();
      r := Sparse(x, y, z);
    }
  }
}
