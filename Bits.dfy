// Bitboards: a 64-bit mask with one bit per square of the chess board.
module Bits {
  /** Squares are numbered a8 = 0, b8 = 1, ..., h8 = 7, a7 = 8, ..., h1 = 63; square s is bit s. */
  type Square = bv6

  type Bitboard = bv64

  /** The square's number 0..63 as an integer (the engine keeps squares in C ints). */
  function Index(s: Square): (i: int)
    ensures 0 <= i < 64
  {
    s as int
  }

  function SquareOf(i: int): Square
    requires 0 <= i < 64
  {
    i as bv6
  }

  lemma IndexOf(i: int)
    requires 0 <= i < 64
    ensures Index(SquareOf(i)) == i
  {}

  lemma OfIndex(s: Square)
    ensures SquareOf(Index(s)) == s
  {}

  lemma IndexInjective(s: Square, t: Square)
    ensures Index(s) == Index(t) ==> s == t
  {
    OfIndex(s);
    OfIndex(t);
  }

  /** Rank row 0..7 counted from the eighth rank, and file column 0..7 counted from the a-file. */
  function Rank(s: Square): int { Index(s) / 8 }
  function File(s: Square): int { Index(s) % 8 }

  function SquareAt(rank: int, file: int): Square
    requires 0 <= rank < 8 && 0 <= file < 8
  {
    SquareOf(rank * 8 + file)
  }

  lemma SquareAtCoords(rank: int, file: int)
    requires 0 <= rank < 8 && 0 <= file < 8
    ensures Rank(SquareAt(rank, file)) == rank && File(SquareAt(rank, file)) == file
  {
    IndexOf(rank * 8 + file);
  }

  lemma SquareAtIndex(rank: int, file: int)
    requires 0 <= rank < 8 && 0 <= file < 8
    ensures Index(SquareAt(rank, file)) == rank * 8 + file
  {
    IndexOf(rank * 8 + file);
  }

  lemma CoordsSquareAt(s: Square)
    ensures 0 <= Rank(s) < 8 && 0 <= File(s) < 8
    ensures SquareAt(Rank(s), File(s)) == s
  {
    OfIndex(s);
  }

  /** Two squares with the same rank and file are the same square. */
  lemma SameCoords(s: Square, t: Square)
    requires Rank(s) == Rank(t) && File(s) == File(t)
    ensures s == t
  {
    CoordsSquareAt(s);
    CoordsSquareAt(t);
  }

  lemma Decompose(s: Square)
    ensures Index(s) == 8 * Rank(s) + File(s)
    ensures 0 <= Rank(s) < 8 && 0 <= File(s) < 8
  {}

  function Abs(x: int): int { if x < 0 then -x else x }

  /** t lies dr ranks and df files away from s. */
  predicate Step(s: Square, t: Square, dr: int, df: int) {
    Rank(t) == Rank(s) + dr && File(t) == File(s) + df
  }

  /** A displacement of the square number by 8 * dr + df is a step of (dr, df) exactly when
      stepping back from t by df files stays on the board, i.e. the step did not wrap a file edge. */
  lemma StepIndex(s: Square, t: Square, dr: int, df: int)
    ensures (Index(t) == Index(s) + 8 * dr + df && 0 <= File(t) - df < 8) <==> Step(s, t, dr, df)
  {
    Decompose(s);
    Decompose(t);
    if Index(t) == Index(s) + 8 * dr + df && 0 <= File(t) - df < 8 {
      assert 8 * (Rank(t) - Rank(s) - dr) == File(s) - (File(t) - df);
    }
  }

  function Bit(s: Square): Bitboard { 1 << s }
  predicate GetBit(b: Bitboard, s: Square) { b & Bit(s) != 0 }
  function SetBit(b: Bitboard, s: Square): Bitboard { b | Bit(s) }
  function PopBit(b: Bitboard, s: Square): Bitboard { b & !Bit(s) }

  /** `a | b`: the squares of either board. Named so that a proof about a running OR can
      treat each step as one term. */
  function Or(a: Bitboard, b: Bitboard): Bitboard { a | b }

  /** `a & b` and `a & ~b`, named for the same reason. */
  function And(a: Bitboard, b: Bitboard): Bitboard { a & b }
  function Minus(a: Bitboard, b: Bitboard): Bitboard { a & !b }

  // Single-direction facts: each is a small bit-vector problem of its own, and the
  // two-way statements below are assembled from them.
  lemma SetBitKeeps(b: Bitboard, s: Square, t: Square)
    ensures GetBit(b, t) ==> GetBit(SetBit(b, s), t)
  {}
  lemma SetBitSets(b: Bitboard, s: Square)
    ensures GetBit(SetBit(b, s), s)
  {}
  lemma SetBitOnly(b: Bitboard, s: Square, t: Square)
    ensures GetBit(SetBit(b, s), t) ==> s == t || GetBit(b, t)
  {}
  lemma PopBitClears(b: Bitboard, s: Square)
    ensures !GetBit(PopBit(b, s), s)
  {}
  lemma PopBitOnly(b: Bitboard, s: Square, t: Square)
    ensures GetBit(PopBit(b, s), t) ==> GetBit(b, t)
  {}
  lemma PopBitKeeps(b: Bitboard, s: Square, t: Square)
    ensures s != t && GetBit(b, t) ==> GetBit(PopBit(b, s), t)
  {}
  lemma BitOnly(s: Square, t: Square)
    ensures GetBit(Bit(s), t) ==> s == t
  {}
  lemma BitSets(s: Square)
    ensures GetBit(Bit(s), s)
  {}
  lemma OrOnly(a: Bitboard, b: Bitboard, t: Square)
    ensures GetBit(a | b, t) ==> GetBit(a, t) || GetBit(b, t)
  {}
  lemma OrLeft(a: Bitboard, b: Bitboard, t: Square)
    ensures GetBit(a, t) ==> GetBit(a | b, t)
  {}
  lemma OrRight(a: Bitboard, b: Bitboard, t: Square)
    ensures GetBit(b, t) ==> GetBit(a | b, t)
  {}
  lemma AndLeft(a: Bitboard, b: Bitboard, t: Square)
    ensures GetBit(a & b, t) ==> GetBit(a, t)
  {}
  lemma AndRight(a: Bitboard, b: Bitboard, t: Square)
    ensures GetBit(a & b, t) ==> GetBit(b, t)
  {}
  lemma AndBoth(a: Bitboard, b: Bitboard, t: Square)
    ensures GetBit(a, t) && GetBit(b, t) ==> GetBit(a & b, t)
  {}
  lemma NotOnly(a: Bitboard, t: Square)
    ensures GetBit(!a, t) ==> !GetBit(a, t)
  {}
  lemma NotAll(a: Bitboard, t: Square)
    ensures !GetBit(a, t) ==> GetBit(!a, t)
  {}
  lemma XorOnly(a: Bitboard, b: Bitboard, t: Square)
    ensures GetBit(a ^ b, t) ==> GetBit(a, t) != GetBit(b, t)
  {}
  lemma EmptyOnly(t: Square)
    ensures !GetBit(0, t)
  {}

  lemma SetBitSpec(b: Bitboard, s: Square, t: Square)
    ensures GetBit(SetBit(b, s), t) <==> s == t || GetBit(b, t)
  {
    SetBitKeeps(b, s, t);
    SetBitSets(b, s);
    SetBitOnly(b, s, t);
  }

  lemma PopBitSpec(b: Bitboard, s: Square, t: Square)
    ensures GetBit(PopBit(b, s), t) <==> s != t && GetBit(b, t)
  {
    PopBitClears(b, s);
    PopBitOnly(b, s, t);
    PopBitKeeps(b, s, t);
  }

  lemma BitSpec(s: Square, t: Square)
    ensures GetBit(Bit(s), t) <==> s == t
  {
    BitOnly(s, t);
    BitSets(s);
  }

  lemma OrSpec(a: Bitboard, b: Bitboard, t: Square)
    ensures GetBit(a | b, t) <==> GetBit(a, t) || GetBit(b, t)
  {
    OrOnly(a, b, t);
    OrLeft(a, b, t);
    OrRight(a, b, t);
  }

  lemma AndSpec(a: Bitboard, b: Bitboard, t: Square)
    ensures GetBit(a & b, t) <==> GetBit(a, t) && GetBit(b, t)
  {
    AndLeft(a, b, t);
    AndRight(a, b, t);
    AndBoth(a, b, t);
  }

  lemma MinusSpec(a: Bitboard, b: Bitboard, t: Square)
    ensures GetBit(Minus(a, b), t) <==> GetBit(a, t) && !GetBit(b, t)
  {
    AndSpec(a, !b, t);
    NotSpec(b, t);
  }

  lemma NotSpec(a: Bitboard, t: Square)
    ensures GetBit(!a, t) <==> !GetBit(a, t)
  {
    NotOnly(a, t);
    NotAll(a, t);
  }

  /** getLSBIndex: the index of the least significant set bit of a non-empty bitboard. */
  function Lsb(b: Bitboard): Square
    requires b != 0
  {
    var x := b & -b;
    (if x & 0xFFFF_FFFF_0000_0000 != 0 then 32 else 0) |
    (if x & 0xFFFF_0000_FFFF_0000 != 0 then 16 else 0) |
    (if x & 0xFF00_FF00_FF00_FF00 != 0 then 8 else 0) |
    (if x & 0xF0F0_F0F0_F0F0_F0F0 != 0 then 4 else 0) |
    (if x & 0xCCCC_CCCC_CCCC_CCCC != 0 then 2 else 0) |
    (if x & 0xAAAA_AAAA_AAAA_AAAA != 0 then 1 else 0)
  }

  lemma LowestBit(b: Bitboard)
    requires b != 0
    ensures Bit(Lsb(b)) == b & -b
  {}

  /** The least significant set bit is set ... */
  lemma LsbSet(b: Bitboard)
    requires b != 0
    ensures GetBit(b, Lsb(b))
  {
    LowestBit(b);
  }

  /** ... and no square below it is. */
  lemma LsbLowest(b: Bitboard, t: Square)
    requires b != 0 && t < Lsb(b)
    ensures !GetBit(b, t)
  {
    LowestBit(b);
    BelowLowest(b);
    BitBelow(t, Lsb(b));
    AndBoth(b, Bit(Lsb(b)) - 1, t);
    EmptyOnly(t);
  }

  lemma BelowLowest(b: Bitboard)
    ensures b & ((b & -b) - 1) == 0
  {}

  lemma BitBelow(t: Square, l: Square)
    requires t < l
    ensures GetBit(Bit(l) - 1, t)
  {}

  /** Two different bitboards differ on their lowest differing square. */
  lemma BitsDiffer(a: Bitboard, b: Bitboard)
    requires a != b
    ensures GetBit(a, Lsb(a ^ b)) != GetBit(b, Lsb(a ^ b))
  {
    LsbSet(a ^ b);
    XorOnly(a, b, Lsb(a ^ b));
  }

  /** Two bitboards holding the same squares are equal. */
  lemma BitsEqual(a: Bitboard, b: Bitboard)
    requires forall t: Square :: GetBit(a, t) == GetBit(b, t)
    ensures a == b
  {
    if a != b {
      BitsDiffer(a, b);
    }
  }

  /** A bitboard with a set square is not empty. */
  lemma NonEmpty(b: Bitboard, t: Square)
    requires GetBit(b, t)
    ensures b != 0
  {}

  /** Popping a set square yields a smaller value, so loops that pop bits terminate. */
  lemma PopBitDecreases(b: Bitboard, t: Square)
    requires GetBit(b, t)
    ensures PopBit(b, t) < b
  {}

  // Reading a bitboard square by square. Proofs about sets of squares work on this
  // sequence of 64 flags; only the single-square bridges below look at the bits.

  /** Flag i tells whether the square numbered i is set. */
  function Members(b: Bitboard): (m: seq<bool>)
    ensures |m| == 64
  {
    seq(64, i requires 0 <= i < 64 => GetBit(b, SquareOf(i)))
  }

  lemma MembersAt(b: Bitboard, t: Square)
    ensures Members(b)[Index(t)] == GetBit(b, t)
  {
    OfIndex(t);
  }

  function NoSquares(): (m: seq<bool>)
    ensures |m| == 64
  {
    seq(64, _ => false)
  }

  function Union(a: seq<bool>, b: seq<bool>): (m: seq<bool>)
    requires |a| == 64 && |b| == 64
    ensures |m| == 64
  {
    seq(64, i requires 0 <= i < 64 => a[i] || b[i])
  }

  function Intersection(a: seq<bool>, b: seq<bool>): (m: seq<bool>)
    requires |a| == 64 && |b| == 64
    ensures |m| == 64
  {
    seq(64, i requires 0 <= i < 64 => a[i] && b[i])
  }

  /** The intersection holds only squares of its second operand. */
  lemma WithinSecond(a: seq<bool>, b: seq<bool>)
    requires |a| == 64 && |b| == 64
    ensures forall i :: 0 <= i < 64 && Intersection(a, b)[i] ==> b[i]
  {}

  function Complement(a: seq<bool>): (m: seq<bool>)
    requires |a| == 64
    ensures |m| == 64
  {
    seq(64, i requires 0 <= i < 64 => !a[i])
  }

  lemma SetBitAt(b: Bitboard, s: Square, i: int)
    requires 0 <= i < 64
    ensures Members(SetBit(b, s))[i] == (i == Index(s) || Members(b)[i])
  {
    var u := SquareOf(i);
    SetBitSpec(b, s, u);
    IndexOf(i);
    IndexInjective(s, u);
  }

  lemma PopBitAt(b: Bitboard, s: Square, i: int)
    requires 0 <= i < 64
    ensures Members(PopBit(b, s))[i] == (i != Index(s) && Members(b)[i])
  {
    var u := SquareOf(i);
    PopBitSpec(b, s, u);
    IndexOf(i);
    IndexInjective(s, u);
  }

  /** set_bit marks exactly one more square. */
  lemma MembersSetBit(b: Bitboard, s: Square)
    ensures Members(SetBit(b, s)) == Members(b)[Index(s) := true]
  {
    forall i | 0 <= i < 64 ensures Members(SetBit(b, s))[i] == Members(b)[Index(s) := true][i] {
      SetBitAt(b, s, i);
    }
  }

  /** pop_bit clears exactly one square. */
  lemma MembersPopBit(b: Bitboard, s: Square)
    ensures Members(PopBit(b, s)) == Members(b)[Index(s) := false]
  {
    forall i | 0 <= i < 64 ensures Members(PopBit(b, s))[i] == Members(b)[Index(s) := false][i] {
      PopBitAt(b, s, i);
    }
  }

  lemma OrAt(a: Bitboard, b: Bitboard, i: int)
    requires 0 <= i < 64
    ensures Members(a | b)[i] == (Members(a)[i] || Members(b)[i])
  {
    var u := SquareOf(i);
    OrSpec(a, b, u);
  }

  lemma AndAt(a: Bitboard, b: Bitboard, i: int)
    requires 0 <= i < 64
    ensures Members(a & b)[i] == (Members(a)[i] && Members(b)[i])
  {
    var u := SquareOf(i);
    AndSpec(a, b, u);
  }

  lemma NotAt(a: Bitboard, i: int)
    requires 0 <= i < 64
    ensures Members(!a)[i] == !Members(a)[i]
  {
    var u := SquareOf(i);
    NotSpec(a, u);
  }

  lemma MembersOr(a: Bitboard, b: Bitboard)
    ensures Members(a | b) == Union(Members(a), Members(b))
  {
    forall i | 0 <= i < 64 ensures Members(a | b)[i] == Union(Members(a), Members(b))[i] {
      OrAt(a, b, i);
    }
  }

  lemma MembersAnd(a: Bitboard, b: Bitboard)
    ensures Members(a & b) == Intersection(Members(a), Members(b))
  {
    forall i | 0 <= i < 64 ensures Members(a & b)[i] == Intersection(Members(a), Members(b))[i] {
      AndAt(a, b, i);
    }
  }

  lemma MembersNot(a: Bitboard)
    ensures Members(!a) == Complement(Members(a))
  {
    forall i | 0 <= i < 64 ensures Members(!a)[i] == Complement(Members(a))[i] {
      NotAt(a, i);
    }
  }

  lemma MembersEmpty()
    ensures Members(0) == NoSquares()
  {
    forall i | 0 <= i < 64 ensures !Members(0)[i] {
      var u := SquareOf(i);
      EmptyOnly(u);
    }
  }

  /** A bitboard is determined by its squares. */
  lemma MembersInjective(a: Bitboard, b: Bitboard)
    requires Members(a) == Members(b)
    ensures a == b
  {
    forall t: Square ensures GetBit(a, t) == GetBit(b, t) {
      MembersAt(a, t);
      MembersAt(b, t);
    }
    BitsEqual(a, b);
  }

  /** getLSBIndex names the first set square. */
  lemma LsbFirst(b: Bitboard)
    requires b != 0
    ensures Members(b)[Index(Lsb(b))]
    ensures forall i :: 0 <= i < Index(Lsb(b)) ==> !Members(b)[i]
  {
    LsbSet(b);
    MembersAt(b, Lsb(b));
    forall i | 0 <= i < Index(Lsb(b)) ensures !Members(b)[i] {
      var u := SquareOf(i);
      IndexOf(i);
      LsbLowest(b, u);
    }
  }

  // Counting.

  /** The number of set flags. */
  function Count(m: seq<bool>): (n: int)
    ensures 0 <= n <= |m|
    decreases |m|
  {
    if m == [] then 0 else Count(m[..|m| - 1]) + (if m[|m| - 1] then 1 else 0)
  }

  /** countBits: the number of set squares. */
  function PopCount(b: Bitboard): int {
    Count(Members(b))
  }

  /** Setting a flag counts one more when it was clear. */
  lemma {:induction false} CountUpdate(m: seq<bool>, i: int, v: bool)
    requires 0 <= i < |m|
    ensures Count(m[i := v]) == Count(m) - (if m[i] then 1 else 0) + (if v then 1 else 0)
    decreases |m|
  {
    var k := |m| - 1;
    if i < k {
      assert m[i := v][..k] == m[..k][i := v];
      CountUpdate(m[..k], i, v);
    } else {
      assert m[i := v][..k] == m[..k];
    }
  }

  lemma {:induction false} CountZero(m: seq<bool>)
    ensures Count(m) == 0 <==> forall i :: 0 <= i < |m| ==> !m[i]
    decreases |m|
  {
    if m != [] {
      var k := |m| - 1;
      CountZero(m[..k]);
      if Count(m) == 0 {
        forall i | 0 <= i < |m| ensures !m[i] {
          if i < k { assert m[..k][i] == m[i]; }
        }
      }
      if forall i :: 0 <= i < |m| ==> !m[i] {
        forall i | 0 <= i < k ensures !m[..k][i] {
          assert m[..k][i] == m[i];
        }
      }
    }
  }

  lemma PopCountPopBit(b: Bitboard, t: Square)
    requires GetBit(b, t)
    ensures PopCount(PopBit(b, t)) == PopCount(b) - 1
  {
    MembersPopBit(b, t);
    MembersAt(b, t);
    CountUpdate(Members(b), Index(t), false);
  }

  lemma PopCountSetBit(b: Bitboard, t: Square)
    requires !GetBit(b, t)
    ensures PopCount(SetBit(b, t)) == PopCount(b) + 1
  {
    MembersSetBit(b, t);
    MembersAt(b, t);
    CountUpdate(Members(b), Index(t), true);
  }

  /** The bitboard with its lowest square popped: one turn of a getLSBIndex/pop_bit loop. */
  function Rest(b: Bitboard): (r: Bitboard)
    requires b != 0
    ensures PopCount(r) < PopCount(b)
  {
    LsbSet(b);
    PopCountPopBit(b, Lsb(b));
    PopBit(b, Lsb(b))
  }

  lemma RestSpec(b: Bitboard, t: Square)
    requires b != 0
    ensures GetBit(Rest(b), t) <==> t != Lsb(b) && GetBit(b, t)
  {
    PopBitSpec(b, Lsb(b), t);
  }

  /** Only the empty bitboard has no set square. */
  lemma PopCountZero(b: Bitboard)
    ensures PopCount(b) == 0 <==> b == 0
  {
    CountZero(Members(b));
    MembersEmpty();
    if PopCount(b) == 0 {
      assert Members(b) == NoSquares();
      MembersInjective(b, 0);
    }
  }

  // ----- Every flag set is some bitboard -----

  /** The bitboard holding the set flags of m below i. */
  ghost function Build(m: seq<bool>, i: int): (b: Bitboard)
    requires |m| == 64 && 0 <= i <= 64
  {
    if i == 0 then 0
    else if m[i - 1] then SetBit(Build(m, i - 1), SquareOf(i - 1))
    else Build(m, i - 1)
  }

  lemma {:induction false} BuildMembers(m: seq<bool>, i: int)
    requires |m| == 64 && 0 <= i <= 64
    ensures Members(Build(m, i)) == seq(64, j requires 0 <= j < 64 => j < i && m[j])
  {
    if i == 0 {
      MembersEmpty();
    } else {
      BuildMembers(m, i - 1);
      if m[i - 1] {
        MembersSetBit(Build(m, i - 1), SquareOf(i - 1));
        IndexOf(i - 1);
      }
    }
  }

  /** The bitboard whose set squares are the flags of m. */
  ghost function FromMembers(m: seq<bool>): (b: Bitboard)
    requires |m| == 64
    ensures Members(b) == m
  {
    BuildMembers(m, 64);
    assert Members(Build(m, 64)) == m;
    var b :| Members(b) == m;
    b
  }
}
