// setOccupancy, engine/main.c: the index-th subset of an attack mask, used to enumerate every
// blocker arrangement a slider's table must answer for.
module Occupancy {
  import opened Bits

  function Pow2(n: nat): (p: int)
    ensures p >= 1
  {
    if n == 0 then 1 else 2 * Pow2(n - 1)
  }

  /** Bit c of a non-negative index, as `index & (1 << c)` tests it. */
  function IndexBit(index: nat, c: nat): bool
    decreases c
  {
    if c == 0 then index % 2 == 1 else IndexBit(index / 2, c - 1)
  }

  /** How many set flags of m come before flag i: the order in which setOccupancy meets them. */
  function Order(m: seq<bool>, i: int): int
    requires 0 <= i <= |m|
  {
    Count(m[..i])
  }

  /** The subset setOccupancy builds: the c-th set square of the mask (counting from the lowest)
      is kept exactly when c < n and bit c of index is set. */
  function OccupancyOf(index: nat, n: int, mask: seq<bool>): (o: seq<bool>)
    requires |mask| == 64
    ensures |o| == 64
    ensures forall i :: 0 <= i < 64 && o[i] ==> mask[i]
  {
    seq(64, i requires 0 <= i < 64 => mask[i] && Order(mask, i) < n && IndexBit(index, Order(mask, i)))
  }

  /** The squares of the mask that setOccupancy has not yet popped after c rounds. */
  function Remaining(mask: seq<bool>, c: int): (o: seq<bool>)
    requires |mask| == 64
    ensures |o| == 64
  {
    seq(64, i requires 0 <= i < 64 => mask[i] && Order(mask, i) >= c)
  }

  // ----- Counting along a prefix -----

  lemma {:induction false} OrderMonotone(m: seq<bool>, a: int, b: int)
    requires 0 <= a <= b <= |m|
    ensures Order(m, a) <= Order(m, b)
    decreases b - a
  {
    if a < b {
      OrderMonotone(m, a, b - 1);
      assert m[..b][..b - 1] == m[..b - 1];
    }
  }

  /** A set flag comes strictly before every later flag in the order. */
  lemma OrderStrict(m: seq<bool>, i: int, j: int)
    requires 0 <= i < j <= |m| && m[i]
    ensures Order(m, i) < Order(m, j)
  {
    assert m[..i + 1][..i] == m[..i];
    OrderMonotone(m, i + 1, j);
  }

  /** Two set flags with the same order are the same flag. */
  lemma OrderInjective(m: seq<bool>, i: int, j: int)
    requires 0 <= i < |m| && 0 <= j < |m| && m[i] && m[j] && Order(m, i) == Order(m, j)
    ensures i == j
  {
    if i < j {
      OrderStrict(m, i, j);
    } else if j < i {
      OrderStrict(m, j, i);
    }
  }

  /** Below flag l, every order less than Order(m, l) belongs to some set flag. */
  lemma {:induction false} FlagWithOrder(m: seq<bool>, l: int, c: int)
    requires 0 <= l <= |m| && 0 <= c < Order(m, l)
    ensures exists i :: 0 <= i < l && m[i] && Order(m, i) == c
    decreases l
  {
    assert m[..l][..l - 1] == m[..l - 1];
    if c < Order(m, l - 1) {
      FlagWithOrder(m, l - 1, c);
    } else {
      assert m[l - 1] && Order(m, l - 1) == c;
    }
  }

  // ----- One round of setOccupancy -----

  /** While rounds remain, some square is still in the mask. */
  lemma RemainingNonEmpty(mask: seq<bool>, c: int)
    requires |mask| == 64 && 0 <= c < Count(mask)
    ensures exists i :: 0 <= i < 64 && Remaining(mask, c)[i]
  {
    assert mask[..64] == mask;
    FlagWithOrder(mask, 64, c);
    var i :| 0 <= i < 64 && mask[i] && Order(mask, i) == c;
    assert Remaining(mask, c)[i];
  }

  /** With no set flag of order c below l, fewer than c + 1 flags lie below l. */
  lemma {:induction false} NoFlagBelow(m: seq<bool>, l: int, c: int)
    requires 0 <= l <= |m| && 0 <= c
    requires forall i :: 0 <= i < l ==> !(m[i] && Order(m, i) == c)
    ensures Order(m, l) <= c
    decreases l
  {
    if l > 0 {
      NoFlagBelow(m, l - 1, c);
      assert m[..l][..l - 1] == m[..l - 1];
    }
  }

  /** The lowest remaining square is the c-th set square of the mask. */
  lemma LowestRemaining(mask: seq<bool>, c: int, l: int)
    requires |mask| == 64 && 0 <= c && 0 <= l < 64 && Remaining(mask, c)[l]
    requires forall i :: 0 <= i < l ==> !Remaining(mask, c)[i]
    ensures mask[l] && Order(mask, l) == c
  {
    forall i | 0 <= i < l ensures !(mask[i] && Order(mask, i) == c) {
      assert !Remaining(mask, c)[i];
    }
    NoFlagBelow(mask, l, c);
  }

  /** Popping the c-th set square leaves the squares for round c + 1. */
  lemma RemainingPop(mask: seq<bool>, c: int, l: int)
    requires |mask| == 64 && 0 <= c && 0 <= l < 64 && mask[l] && Order(mask, l) == c
    ensures Remaining(mask, c)[l := false] == Remaining(mask, c + 1)
  {
    var popped := Remaining(mask, c)[l := false];
    var next := Remaining(mask, c + 1);
    forall i | 0 <= i < 64 ensures popped[i] == next[i] {
      if i != l && mask[i] && Order(mask, i) == c {
        OrderInjective(mask, i, l);
      }
    }
  }

  /** Round c adds the c-th set square exactly when bit c of the index is set. */
  lemma OccupancyStep(index: nat, mask: seq<bool>, c: int, l: int)
    requires |mask| == 64 && 0 <= c && 0 <= l < 64 && mask[l] && Order(mask, l) == c
    ensures OccupancyOf(index, c + 1, mask) ==
      if IndexBit(index, c) then OccupancyOf(index, c, mask)[l := true] else OccupancyOf(index, c, mask)
  {
    var next := if IndexBit(index, c) then OccupancyOf(index, c, mask)[l := true] else OccupancyOf(index, c, mask);
    forall i | 0 <= i < 64 ensures OccupancyOf(index, c + 1, mask)[i] == next[i] {
      if i != l && mask[i] && Order(mask, i) == c {
        OrderInjective(mask, i, l);
      }
    }
  }

  /** One round of the loop, on bitboards: the lowest square of the remaining mask is popped
      and, when bit c of the index is set, added to the occupancy. */
  lemma Round(index: nat, mask: seq<bool>, c: int, rest: Bitboard, occupancy: Bitboard)
    requires |mask| == 64 && 0 <= c < Count(mask)
    requires Members(rest) == Remaining(mask, c) && Members(occupancy) == OccupancyOf(index, c, mask)
    ensures rest != 0
    ensures Members(PopBit(rest, Lsb(rest))) == Remaining(mask, c + 1)
    ensures Members(if IndexBit(index, c) then SetBit(occupancy, Lsb(rest)) else occupancy) == OccupancyOf(index, c + 1, mask)
  {
    RemainingNonEmpty(mask, c);
    var i :| 0 <= i < 64 && Remaining(mask, c)[i];
    MembersEmpty();
    assert rest != 0 by {
      if rest == 0 {
        assert Members(rest)[i];
      }
    }
    var square := Lsb(rest);
    LsbFirst(rest);
    var l := Index(square);
    LowestRemaining(mask, c, l);
    MembersPopBit(rest, square);
    RemainingPop(mask, c, l);
    MembersSetBit(occupancy, square);
    OccupancyStep(index, mask, c, l);
  }

  /** setOccupancy: walks the mask from its lowest square, keeping the count-th square exactly
      when bit count of index is set. */
  method SetOccupancy(index: nat, bitsInMask: int, attackMask: Bitboard) returns (occupancy: Bitboard)
    requires 0 <= bitsInMask <= PopCount(attackMask) && bitsInMask < 32
    ensures Members(occupancy) == OccupancyOf(index, bitsInMask, Members(attackMask))
  {
    ghost var mask := Members(attackMask);
    occupancy := 0;
    var rest := attackMask;
    MembersEmpty();
    assert Members(rest) == Remaining(mask, 0);
    assert Members(occupancy) == OccupancyOf(index, 0, mask);
    var count := 0;
    while count < bitsInMask
      invariant 0 <= count <= bitsInMask
      invariant Members(rest) == Remaining(mask, count)
      invariant Members(occupancy) == OccupancyOf(index, count, mask)
    {
      Round(index, mask, count, rest, occupancy);
      var square := Lsb(rest);
      rest := PopBit(rest, square);
      if IndexBit(index, count) {
        occupancy := SetBit(occupancy, square);
      }
      count := count + 1;
    }
  }

  // ----- Which subsets the indices give -----

  /** Index 0 gives the empty occupancy. */
  lemma OccupancyZero(n: int, mask: seq<bool>)
    requires |mask| == 64
    ensures OccupancyOf(0, n, mask) == NoSquares()
  {
    forall i | 0 <= i < 64 ensures !OccupancyOf(0, n, mask)[i] {
      if mask[i] && Order(mask, i) >= 0 {
        IndexBitZero(Order(mask, i));
      }
    }
  }

  lemma {:induction false} IndexBitZero(c: nat)
    ensures !IndexBit(0, c)
  {
    if c > 0 {
      IndexBitZero(c - 1);
    }
  }

  lemma {:induction false} IndexBitAllOnes(n: nat, c: nat)
    requires c < n
    ensures IndexBit(Pow2(n) - 1, c)
    decreases c
  {
    if c > 0 {
      assert (Pow2(n) - 1) / 2 == Pow2(n - 1) - 1;
      IndexBitAllOnes(n - 1, c - 1);
    }
  }

  /** Index 2^n - 1, with n the mask's population count, gives the whole mask. */
  lemma OccupancyFull(mask: seq<bool>)
    requires |mask| == 64
    ensures OccupancyOf(Pow2(Count(mask)) - 1, Count(mask), mask) == mask
  {
    var n := Count(mask);
    assert mask[..64] == mask;
    forall i | 0 <= i < 64 ensures OccupancyOf(Pow2(n) - 1, n, mask)[i] == mask[i] {
      if mask[i] {
        OrderStrict(mask, i, 64);
        IndexBitAllOnes(n, Order(mask, i));
      }
    }
  }

  /** Two different indices below 2^n differ in one of their n low bits. */
  lemma {:induction false} IndexBitsDiffer(a: nat, b: nat, n: nat)
    requires a != b && a < Pow2(n) && b < Pow2(n)
    ensures exists c :: 0 <= c < n && IndexBit(a, c) != IndexBit(b, c)
    decreases n
  {
    if a % 2 != b % 2 {
      assert IndexBit(a, 0) != IndexBit(b, 0);
    } else {
      IndexBitsDiffer(a / 2, b / 2, n - 1);
      var c :| 0 <= c < n - 1 && IndexBit(a / 2, c) != IndexBit(b / 2, c);
      assert IndexBit(a, c + 1) != IndexBit(b, c + 1);
    }
  }

  /** Distinct indices below 2^n give distinct occupancies when the mask has at least n squares. */
  lemma OccupancyInjective(a: nat, b: nat, n: nat, mask: seq<bool>)
    requires |mask| == 64 && n <= Count(mask) && a != b && a < Pow2(n) && b < Pow2(n)
    ensures OccupancyOf(a, n, mask) != OccupancyOf(b, n, mask)
  {
    IndexBitsDiffer(a, b, n);
    var c :| 0 <= c < n && IndexBit(a, c) != IndexBit(b, c);
    assert mask[..64] == mask;
    FlagWithOrder(mask, 64, c);
    var i :| 0 <= i < 64 && mask[i] && Order(mask, i) == c;
    assert OccupancyOf(a, n, mask)[i] != OccupancyOf(b, n, mask)[i];
  }

  // ----- Every subset of the mask has an index -----

  /** The flags of sub at the set positions of m, in order: the bits of the index that names sub. */
  function Squeeze(m: seq<bool>, sub: seq<bool>): (bs: seq<bool>)
    requires |m| == |sub|
    ensures |bs| == Count(m)
    decreases |m|
  {
    if m == [] then []
    else
      var l := |m| - 1;
      Squeeze(m[..l], sub[..l]) + (if m[l] then [sub[l]] else [])
  }

  /** The index whose bit c is bs[c]. */
  function FromBits(bs: seq<bool>): (k: nat)
    ensures k < Pow2(|bs|)
  {
    if bs == [] then 0 else (if bs[0] then 1 else 0) + 2 * FromBits(bs[1..])
  }

  lemma {:induction false} FromBitsAt(bs: seq<bool>, c: nat)
    requires c < |bs|
    ensures IndexBit(FromBits(bs), c) == bs[c]
    decreases c
  {
    var rest := FromBits(bs[1..]);
    assert FromBits(bs) == (if bs[0] then 1 else 0) + 2 * rest;
    assert FromBits(bs) / 2 == rest && (FromBits(bs) % 2 == 1 <==> bs[0]);
    if c > 0 {
      FromBitsAt(bs[1..], c - 1);
      assert bs[1..][c - 1] == bs[c];
    }
  }

  lemma {:induction false} SqueezeAt(m: seq<bool>, sub: seq<bool>, i: int)
    requires |m| == |sub| && 0 <= i < |m| && m[i]
    ensures Order(m, i) < Count(m) && Squeeze(m, sub)[Order(m, i)] == sub[i]
    decreases |m|
  {
    var l := |m| - 1;
    OrderStrict(m, i, |m|);
    assert m[..|m|] == m;
    if i < l {
      assert m[..l][..i] == m[..i];
      SqueezeAt(m[..l], sub[..l], i);
    }
  }

  /** Every subset of the mask is the occupancy of some index below 2^n, n the mask's size:
      the enumeration of setOccupancy misses no blocker arrangement. */
  lemma OccupancyComplete(mask: seq<bool>, sub: seq<bool>)
    requires |mask| == 64 && |sub| == 64
    requires forall i :: 0 <= i < 64 && sub[i] ==> mask[i]
    ensures exists k: nat :: k < Pow2(Count(mask)) && OccupancyOf(k, Count(mask), mask) == sub
  {
    var n := Count(mask);
    var k := FromBits(Squeeze(mask, sub));
    forall i | 0 <= i < 64 ensures OccupancyOf(k, n, mask)[i] == sub[i] {
      if mask[i] {
        SqueezeAt(mask, sub, i);
        FromBitsAt(Squeeze(mask, sub), Order(mask, i));
      }
    }
    assert OccupancyOf(k, n, mask) == sub;
  }
}
