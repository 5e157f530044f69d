// Attack masks of the leaping pieces (pawn captures, knight, king), engine/main.c.
// Each is built from one bit by guarded shifts: a shifted bit is kept only when it
// survives a file mask, which is what stops a jump from wrapping round a board edge.
module Leapers {
  import opened Bits

  /** Every square except those on the a-file (resp. h-file, g/h-files, a/b-files). */
  const NotAFile: Bitboard := 18374403900871474942
  const NotHFile: Bitboard := 9187201950435737471
  const NotHGFile: Bitboard := 4557430888798830399
  const NotABFile: Bitboard := 18229723555195321596
  /** The king's vertical steps are guarded by a plain non-zero test: every square passes. */
  const AllSquares: Bitboard := 0xFFFF_FFFF_FFFF_FFFF

  /** The mask m admits exactly the targets t whose origin, df files back, is on the board. */
  ghost predicate Admits(m: Bitboard, df: int) {
    forall t: Square :: GetBit(m, t) <==> 0 <= File(t) - df < 8
  }

  lemma NotAFileSpec(t: Square)
    ensures GetBit(NotAFile, t) <==> File(t) != 0
  {}

  lemma NotHFileSpec(t: Square)
    ensures GetBit(NotHFile, t) <==> File(t) != 7
  {}

  lemma NotHGFileSpec(t: Square)
    ensures GetBit(NotHGFile, t) <==> File(t) < 6
  {}

  lemma NotABFileSpec(t: Square)
    ensures GetBit(NotABFile, t) <==> File(t) > 1
  {}

  lemma AllSquaresSpec(t: Square)
    ensures GetBit(AllSquares, t)
  {}

  lemma AdmitsEast(d: int)
    requires d == 1 || d == 2
    ensures Admits(if d == 1 then NotAFile else NotABFile, d)
  {
    forall t: Square
      ensures GetBit(if d == 1 then NotAFile else NotABFile, t) <==> 0 <= File(t) - d < 8
    {
      NotAFileSpec(t);
      NotABFileSpec(t);
      Decompose(t);
    }
  }

  lemma AdmitsWest(d: int)
    requires d == 1 || d == 2
    ensures Admits(if d == 1 then NotHFile else NotHGFile, -d)
  {
    forall t: Square
      ensures GetBit(if d == 1 then NotHFile else NotHGFile, t) <==> 0 <= File(t) + d < 8
    {
      NotHFileSpec(t);
      NotHGFileSpec(t);
      Decompose(t);
    }
  }

  lemma AdmitsAll()
    ensures Admits(AllSquares, 0)
  {
    forall t: Square
      ensures GetBit(AllSquares, t) <==> 0 <= File(t) < 8
    {
      AllSquaresSpec(t);
      Decompose(t);
    }
  }

  /** `if ((b >> k) & mask) attacks |= b >> k;` contributes Guarded(b >> k, mask). */
  function Guarded(x: Bitboard, m: Bitboard): Bitboard {
    if x & m != 0 then x else 0
  }

  /** `attacks = 0; attacks |= g0; attacks |= g1; ...` */
  function OrAll(gs: seq<Bitboard>): Bitboard
    decreases |gs|
  {
    if gs == [] then 0 else OrAll(gs[..|gs| - 1]) | gs[|gs| - 1]
  }

  lemma {:induction false} OrAllOnly(gs: seq<Bitboard>, t: Square)
    ensures GetBit(OrAll(gs), t) ==> exists i :: 0 <= i < |gs| && GetBit(gs[i], t)
    decreases |gs|
  {
    if gs == [] {
      EmptyOnly(t);
    } else {
      var init := gs[..|gs| - 1];
      OrOnly(OrAll(init), gs[|gs| - 1], t);
      OrAllOnly(init, t);
      if GetBit(OrAll(init), t) {
        var i :| 0 <= i < |init| && GetBit(init[i], t);
        assert gs[i] == init[i];
      }
    }
  }

  lemma {:induction false} OrAllHas(gs: seq<Bitboard>, i: int, t: Square)
    requires 0 <= i < |gs| && GetBit(gs[i], t)
    ensures GetBit(OrAll(gs), t)
    decreases |gs|
  {
    var init := gs[..|gs| - 1];
    if i == |gs| - 1 {
      OrRight(OrAll(init), gs[i], t);
    } else {
      assert init[i] == gs[i];
      OrAllHas(init, i, t);
      OrLeft(OrAll(init), gs[|gs| - 1], t);
    }
  }

  /** The bit of square t is in OrAll(gs) exactly when it is in one of the terms. */
  lemma OrAllSpec(gs: seq<Bitboard>, t: Square)
    ensures GetBit(OrAll(gs), t) <==> exists i :: 0 <= i < |gs| && GetBit(gs[i], t)
  {
    OrAllOnly(gs, t);
    if i :| 0 <= i < |gs| && GetBit(gs[i], t) {
      OrAllHas(gs, i, t);
    }
  }

  // Shifting a single bit by a literal amount: it moves, or falls off the end.
  lemma Shr1(s: Square) ensures Bit(s) >> 1 == if 1 <= s then Bit(s - 1) else 0 {}
  lemma Shr6(s: Square) ensures Bit(s) >> 6 == if 6 <= s then Bit(s - 6) else 0 {}
  lemma Shr7(s: Square) ensures Bit(s) >> 7 == if 7 <= s then Bit(s - 7) else 0 {}
  lemma Shr8(s: Square) ensures Bit(s) >> 8 == if 8 <= s then Bit(s - 8) else 0 {}
  lemma Shr9(s: Square) ensures Bit(s) >> 9 == if 9 <= s then Bit(s - 9) else 0 {}
  lemma Shr10(s: Square) ensures Bit(s) >> 10 == if 10 <= s then Bit(s - 10) else 0 {}
  lemma Shr15(s: Square) ensures Bit(s) >> 15 == if 15 <= s then Bit(s - 15) else 0 {}
  lemma Shr17(s: Square) ensures Bit(s) >> 17 == if 17 <= s then Bit(s - 17) else 0 {}
  lemma Shl1(s: Square) ensures Bit(s) << 1 == if s <= 62 then Bit(s + 1) else 0 {}
  lemma Shl6(s: Square) ensures Bit(s) << 6 == if s <= 57 then Bit(s + 6) else 0 {}
  lemma Shl7(s: Square) ensures Bit(s) << 7 == if s <= 56 then Bit(s + 7) else 0 {}
  lemma Shl8(s: Square) ensures Bit(s) << 8 == if s <= 55 then Bit(s + 8) else 0 {}
  lemma Shl9(s: Square) ensures Bit(s) << 9 == if s <= 54 then Bit(s + 9) else 0 {}
  lemma Shl10(s: Square) ensures Bit(s) << 10 == if s <= 53 then Bit(s + 10) else 0 {}
  lemma Shl15(s: Square) ensures Bit(s) << 15 == if s <= 48 then Bit(s + 15) else 0 {}
  lemma Shl17(s: Square) ensures Bit(s) << 17 == if s <= 46 then Bit(s + 17) else 0 {}

  lemma GuardedBit(u: Square, t: Square, m: Bitboard)
    ensures GetBit(Guarded(Bit(u), m), t) <==> u == t && GetBit(m, t)
  {
    BitOnly(u, t);
    BitSets(u);
    if GetBit(m, u) {
      assert Bit(u) & m != 0;
    }
  }

  lemma IndexSub(s: Square, k: Square)
    requires k <= s
    ensures Index(s - k) == Index(s) - Index(k)
  {}

  lemma IndexAdd(s: Square, k: Square)
    requires s <= 63 - k
    ensures Index(s + k) == Index(s) + Index(k)
  {}

  /** A guarded right shift by k = -(8 * dr + df) is the step (dr, df) when the mask admits df. */
  lemma RightTerm(s: Square, t: Square, k: Square, dr: int, df: int, m: Bitboard, x: Bitboard)
    requires x == if k <= s then Bit(s - k) else 0
    requires Index(k) == -(8 * dr + df) && Admits(m, df)
    ensures GetBit(Guarded(x, m), t) <==> Step(s, t, dr, df)
  {
    StepIndex(s, t, dr, df);
    if k <= s {
      GuardedBit(s - k, t, m);
      IndexSub(s, k);
      IndexInjective(s - k, t);
    } else {
      EmptyOnly(t);
    }
  }

  /** A guarded left shift by k = 8 * dr + df is the step (dr, df) when the mask admits df. */
  lemma LeftTerm(s: Square, t: Square, k: Square, dr: int, df: int, m: Bitboard, x: Bitboard)
    requires x == if s <= 63 - k then Bit(s + k) else 0
    requires Index(k) == 8 * dr + df && Admits(m, df)
    ensures GetBit(Guarded(x, m), t) <==> Step(s, t, dr, df)
  {
    StepIndex(s, t, dr, df);
    if s <= 63 - k {
      GuardedBit(s + k, t, m);
      IndexAdd(s, k);
      IndexInjective(s + k, t);
    } else {
      EmptyOnly(t);
    }
  }

  // ----- Knight -----

  /** The eight guarded shifts of getKnightAttacks, in the order the engine ORs them. */
  function KnightTerms(s: Square): seq<Bitboard> {
    var b := Bit(s);
    [Guarded(b >> 17, NotHFile), Guarded(b >> 15, NotAFile), Guarded(b >> 10, NotHGFile), Guarded(b >> 6, NotABFile),
     Guarded(b << 17, NotAFile), Guarded(b << 15, NotHFile), Guarded(b << 10, NotABFile), Guarded(b << 6, NotHGFile)]
  }

  function KnightAttacks(s: Square): Bitboard {
    OrAll(KnightTerms(s))
  }

  /** The (rank, file) displacement that each of the eight terms stands for. */
  const KnightSteps: seq<(int, int)> := [(-2, -1), (-2, 1), (-1, -2), (-1, 2), (2, 1), (2, -1), (1, 2), (1, -2)]

  /** Reference definition: t is a knight's jump from s, one square straight and one diagonally away. */
  predicate KnightJump(s: Square, t: Square) {
    KnightOffset(Rank(t) - Rank(s), File(t) - File(s))
  }

  predicate KnightOffset(dr: int, df: int) {
    (Abs(dr) == 1 && Abs(df) == 2) || (Abs(dr) == 2 && Abs(df) == 1)
  }

  lemma KnightTerm0(s: Square, t: Square)
    ensures GetBit(KnightTerms(s)[0], t) <==> Step(s, t, KnightSteps[0].0, KnightSteps[0].1)
  {
    var b := Bit(s);
    Shr17(s);
    AdmitsWest(1);
    RightTerm(s, t, 17, -2, -1, NotHFile, b >> 17);
  }

  lemma KnightTerm1(s: Square, t: Square)
    ensures GetBit(KnightTerms(s)[1], t) <==> Step(s, t, KnightSteps[1].0, KnightSteps[1].1)
  {
    var b := Bit(s);
    Shr15(s);
    AdmitsEast(1);
    RightTerm(s, t, 15, -2, 1, NotAFile, b >> 15);
  }

  lemma KnightTerm2(s: Square, t: Square)
    ensures GetBit(KnightTerms(s)[2], t) <==> Step(s, t, KnightSteps[2].0, KnightSteps[2].1)
  {
    var b := Bit(s);
    Shr10(s);
    AdmitsWest(2);
    RightTerm(s, t, 10, -1, -2, NotHGFile, b >> 10);
  }

  lemma KnightTerm3(s: Square, t: Square)
    ensures GetBit(KnightTerms(s)[3], t) <==> Step(s, t, KnightSteps[3].0, KnightSteps[3].1)
  {
    var b := Bit(s);
    Shr6(s);
    AdmitsEast(2);
    RightTerm(s, t, 6, -1, 2, NotABFile, b >> 6);
  }

  lemma KnightTerm4(s: Square, t: Square)
    ensures GetBit(KnightTerms(s)[4], t) <==> Step(s, t, KnightSteps[4].0, KnightSteps[4].1)
  {
    var b := Bit(s);
    Shl17(s);
    AdmitsEast(1);
    LeftTerm(s, t, 17, 2, 1, NotAFile, b << 17);
  }

  lemma KnightTerm5(s: Square, t: Square)
    ensures GetBit(KnightTerms(s)[5], t) <==> Step(s, t, KnightSteps[5].0, KnightSteps[5].1)
  {
    var b := Bit(s);
    Shl15(s);
    AdmitsWest(1);
    LeftTerm(s, t, 15, 2, -1, NotHFile, b << 15);
  }

  lemma KnightTerm6(s: Square, t: Square)
    ensures GetBit(KnightTerms(s)[6], t) <==> Step(s, t, KnightSteps[6].0, KnightSteps[6].1)
  {
    var b := Bit(s);
    Shl10(s);
    AdmitsEast(2);
    LeftTerm(s, t, 10, 1, 2, NotABFile, b << 10);
  }

  lemma KnightTerm7(s: Square, t: Square)
    ensures GetBit(KnightTerms(s)[7], t) <==> Step(s, t, KnightSteps[7].0, KnightSteps[7].1)
  {
    var b := Bit(s);
    Shl6(s);
    AdmitsWest(2);
    LeftTerm(s, t, 6, 1, -2, NotHGFile, b << 6);
  }

  lemma KnightTerm(s: Square, t: Square, i: int)
    requires 0 <= i < 8
    ensures GetBit(KnightTerms(s)[i], t) <==> Step(s, t, KnightSteps[i].0, KnightSteps[i].1)
  {
    match i
    case 0 => KnightTerm0(s, t);
    case 1 => KnightTerm1(s, t);
    case 2 => KnightTerm2(s, t);
    case 3 => KnightTerm3(s, t);
    case 4 => KnightTerm4(s, t);
    case 5 => KnightTerm5(s, t);
    case 6 => KnightTerm6(s, t);
    case 7 => KnightTerm7(s, t);
  }

  /** The (rank, file) displacement from s to t. */
  function Displacement(s: Square, t: Square): (int, int) {
    (Rank(t) - Rank(s), File(t) - File(s))
  }

  /** An OR of guarded terms, term i being exactly the step steps[i], is the set of those steps. */
  lemma TermsSpec(gs: seq<Bitboard>, steps: seq<(int, int)>, s: Square, t: Square)
    requires |gs| == |steps|
    requires forall i :: 0 <= i < |gs| ==> (GetBit(gs[i], t) <==> Step(s, t, steps[i].0, steps[i].1))
    ensures GetBit(OrAll(gs), t) <==> Displacement(s, t) in steps
  {
    OrAllSpec(gs, t);
    if Displacement(s, t) in steps {
      var i :| 0 <= i < |steps| && steps[i] == Displacement(s, t);
      assert GetBit(gs[i], t);
    }
  }

  lemma KnightTermsSpec(s: Square, t: Square)
    ensures GetBit(KnightAttacks(s), t) <==> Displacement(s, t) in KnightSteps
  {
    forall i | 0 <= i < 8
      ensures GetBit(KnightTerms(s)[i], t) <==> Step(s, t, KnightSteps[i].0, KnightSteps[i].1)
    {
      KnightTerm(s, t, i);
    }
    TermsSpec(KnightTerms(s), KnightSteps, s, t);
  }

  lemma KnightStepsJump(dr: int, df: int)
    ensures (dr, df) in KnightSteps <==> KnightOffset(dr, df)
  {
    if KnightOffset(dr, df) {
      var i := if dr == -2 then (if df == -1 then 0 else 1)
               else if dr == -1 then (if df == -2 then 2 else 3)
               else if dr == 2 then (if df == 1 then 4 else 5)
               else (if df == 2 then 6 else 7);
      assert KnightSteps[i] == (dr, df);
    }
  }

  /** The knight mask holds exactly the squares a knight's jump away: no wrap across the a/h files. */
  lemma KnightAttacksSpec(s: Square, t: Square)
    ensures GetBit(KnightAttacks(s), t) <==> KnightJump(s, t)
  {
    KnightTermsSpec(s, t);
    KnightStepsJump(Rank(t) - Rank(s), File(t) - File(s));
  }

  /** No square is a knight's jump from itself, and no jump crosses more than two files:
      a knight on the a- or b-file never reaches the g- or h-file. */
  lemma KnightNoSourceNoWrap(s: Square, t: Square)
    ensures !GetBit(KnightAttacks(s), s)
    ensures GetBit(KnightAttacks(s), t) ==> Abs(File(t) - File(s)) <= 2 && Abs(Rank(t) - Rank(s)) <= 2
  {
    KnightAttacksSpec(s, s);
    KnightAttacksSpec(s, t);
  }

  // ----- King -----

  /** The eight guarded shifts of getKingAttacks; the vertical ones are guarded by a non-zero test. */
  function KingTerms(s: Square): seq<Bitboard> {
    var b := Bit(s);
    [Guarded(b >> 8, AllSquares), Guarded(b >> 9, NotHFile), Guarded(b >> 7, NotAFile), Guarded(b >> 1, NotHFile),
     Guarded(b << 8, AllSquares), Guarded(b << 9, NotAFile), Guarded(b << 7, NotHFile), Guarded(b << 1, NotAFile)]
  }

  function KingAttacks(s: Square): Bitboard {
    OrAll(KingTerms(s))
  }

  const KingSteps: seq<(int, int)> := [(-1, 0), (-1, -1), (-1, 1), (0, -1), (1, 0), (1, 1), (1, -1), (0, 1)]

  /** Reference definition: t is one of the (up to) eight squares touching s. */
  predicate KingStep(s: Square, t: Square) {
    KingOffset(Rank(t) - Rank(s), File(t) - File(s))
  }

  predicate KingOffset(dr: int, df: int) {
    Abs(dr) <= 1 && Abs(df) <= 1 && (dr, df) != (0, 0)
  }

  /** A guarded non-zero test is the same as the engine's plain `if (x)`. */
  lemma AllSquaresGuard(x: Bitboard)
    ensures Guarded(x, AllSquares) == if x != 0 then x else 0
  {}

  lemma KingTerm0(s: Square, t: Square)
    ensures GetBit(KingTerms(s)[0], t) <==> Step(s, t, KingSteps[0].0, KingSteps[0].1)
  {
    Shr8(s);
    AdmitsAll();
    RightTerm(s, t, 8, -1, 0, AllSquares, Bit(s) >> 8);
  }

  lemma KingTerm1(s: Square, t: Square)
    ensures GetBit(KingTerms(s)[1], t) <==> Step(s, t, KingSteps[1].0, KingSteps[1].1)
  {
    Shr9(s);
    AdmitsWest(1);
    RightTerm(s, t, 9, -1, -1, NotHFile, Bit(s) >> 9);
  }

  lemma KingTerm2(s: Square, t: Square)
    ensures GetBit(KingTerms(s)[2], t) <==> Step(s, t, KingSteps[2].0, KingSteps[2].1)
  {
    Shr7(s);
    AdmitsEast(1);
    RightTerm(s, t, 7, -1, 1, NotAFile, Bit(s) >> 7);
  }

  lemma KingTerm3(s: Square, t: Square)
    ensures GetBit(KingTerms(s)[3], t) <==> Step(s, t, KingSteps[3].0, KingSteps[3].1)
  {
    Shr1(s);
    AdmitsWest(1);
    RightTerm(s, t, 1, 0, -1, NotHFile, Bit(s) >> 1);
  }

  lemma KingTerm4(s: Square, t: Square)
    ensures GetBit(KingTerms(s)[4], t) <==> Step(s, t, KingSteps[4].0, KingSteps[4].1)
  {
    Shl8(s);
    AdmitsAll();
    LeftTerm(s, t, 8, 1, 0, AllSquares, Bit(s) << 8);
  }

  lemma KingTerm5(s: Square, t: Square)
    ensures GetBit(KingTerms(s)[5], t) <==> Step(s, t, KingSteps[5].0, KingSteps[5].1)
  {
    Shl9(s);
    AdmitsEast(1);
    LeftTerm(s, t, 9, 1, 1, NotAFile, Bit(s) << 9);
  }

  lemma KingTerm6(s: Square, t: Square)
    ensures GetBit(KingTerms(s)[6], t) <==> Step(s, t, KingSteps[6].0, KingSteps[6].1)
  {
    Shl7(s);
    AdmitsWest(1);
    LeftTerm(s, t, 7, 1, -1, NotHFile, Bit(s) << 7);
  }

  lemma KingTerm7(s: Square, t: Square)
    ensures GetBit(KingTerms(s)[7], t) <==> Step(s, t, KingSteps[7].0, KingSteps[7].1)
  {
    Shl1(s);
    AdmitsEast(1);
    LeftTerm(s, t, 1, 0, 1, NotAFile, Bit(s) << 1);
  }

  lemma KingTerm(s: Square, t: Square, i: int)
    requires 0 <= i < 8
    ensures GetBit(KingTerms(s)[i], t) <==> Step(s, t, KingSteps[i].0, KingSteps[i].1)
  {
    match i
    case 0 => KingTerm0(s, t);
    case 1 => KingTerm1(s, t);
    case 2 => KingTerm2(s, t);
    case 3 => KingTerm3(s, t);
    case 4 => KingTerm4(s, t);
    case 5 => KingTerm5(s, t);
    case 6 => KingTerm6(s, t);
    case 7 => KingTerm7(s, t);
  }

  lemma KingTermsSpec(s: Square, t: Square)
    ensures GetBit(KingAttacks(s), t) <==> Displacement(s, t) in KingSteps
  {
    forall i | 0 <= i < 8
      ensures GetBit(KingTerms(s)[i], t) <==> Step(s, t, KingSteps[i].0, KingSteps[i].1)
    {
      KingTerm(s, t, i);
    }
    TermsSpec(KingTerms(s), KingSteps, s, t);
  }

  lemma KingStepsNeighbour(dr: int, df: int)
    ensures (dr, df) in KingSteps <==> KingOffset(dr, df)
  {
    if KingOffset(dr, df) {
      var i := if dr == -1 then (if df == 0 then 0 else if df == -1 then 1 else 2)
               else if dr == 1 then (if df == 0 then 4 else if df == 1 then 5 else 6)
               else (if df == -1 then 3 else 7);
      assert KingSteps[i] == (dr, df);
    }
  }

  /** The king mask holds exactly the squares touching the king's square. */
  lemma KingAttacksSpec(s: Square, t: Square)
    ensures GetBit(KingAttacks(s), t) <==> KingStep(s, t)
  {
    KingTermsSpec(s, t);
    KingStepsNeighbour(Rank(t) - Rank(s), File(t) - File(s));
  }

  lemma KingNoSourceNoWrap(s: Square, t: Square)
    ensures !GetBit(KingAttacks(s), s)
    ensures GetBit(KingAttacks(s), t) ==> Abs(File(t) - File(s)) <= 1
  {
    KingAttacksSpec(s, s);
    KingAttacksSpec(s, t);
  }

  // ----- Pawn captures -----

  const White := 0
  const Black := 1

  /** getPawnAttacks: side 0 (white) captures towards the eighth rank, any other side towards the first. */
  function PawnTerms(side: int, s: Square): seq<Bitboard> {
    var b := Bit(s);
    if side == 0 then [Guarded(b >> 7, NotAFile), Guarded(b >> 9, NotHFile)]
    else [Guarded(b << 7, NotHFile), Guarded(b << 9, NotAFile)]
  }

  function PawnAttacks(side: int, s: Square): Bitboard {
    OrAll(PawnTerms(side, s))
  }

  function PawnSteps(side: int): seq<(int, int)> {
    if side == 0 then [(-1, 1), (-1, -1)] else [(1, -1), (1, 1)]
  }

  /** The rank direction a pawn of this side advances in (square numbers fall towards rank 8). */
  function Forward(side: int): int {
    if side == 0 then -1 else 1
  }

  /** Reference definition: t is diagonally in front of a pawn of this side on s. */
  predicate PawnCapture(side: int, s: Square, t: Square) {
    Rank(t) - Rank(s) == Forward(side) && Abs(File(t) - File(s)) == 1
  }

  lemma WhitePawnTerm0(side: int, s: Square, t: Square)
    requires side == 0
    ensures GetBit(PawnTerms(side, s)[0], t) <==> Step(s, t, PawnSteps(side)[0].0, PawnSteps(side)[0].1)
  {
    Shr7(s); AdmitsEast(1); RightTerm(s, t, 7, -1, 1, NotAFile, Bit(s) >> 7);
  }

  lemma WhitePawnTerm1(side: int, s: Square, t: Square)
    requires side == 0
    ensures GetBit(PawnTerms(side, s)[1], t) <==> Step(s, t, PawnSteps(side)[1].0, PawnSteps(side)[1].1)
  {
    Shr9(s); AdmitsWest(1); RightTerm(s, t, 9, -1, -1, NotHFile, Bit(s) >> 9);
  }

  lemma BlackPawnTerm0(side: int, s: Square, t: Square)
    requires side != 0
    ensures GetBit(PawnTerms(side, s)[0], t) <==> Step(s, t, PawnSteps(side)[0].0, PawnSteps(side)[0].1)
  {
    Shl7(s); AdmitsWest(1); LeftTerm(s, t, 7, 1, -1, NotHFile, Bit(s) << 7);
  }

  lemma BlackPawnTerm1(side: int, s: Square, t: Square)
    requires side != 0
    ensures GetBit(PawnTerms(side, s)[1], t) <==> Step(s, t, PawnSteps(side)[1].0, PawnSteps(side)[1].1)
  {
    Shl9(s); AdmitsEast(1); LeftTerm(s, t, 9, 1, 1, NotAFile, Bit(s) << 9);
  }

  lemma PawnTerm(side: int, s: Square, t: Square, i: int)
    requires 0 <= i < 2
    ensures GetBit(PawnTerms(side, s)[i], t) <==> Step(s, t, PawnSteps(side)[i].0, PawnSteps(side)[i].1)
  {
    if side == 0 {
      if i == 0 { WhitePawnTerm0(side, s, t); } else { WhitePawnTerm1(side, s, t); }
    } else {
      if i == 0 { BlackPawnTerm0(side, s, t); } else { BlackPawnTerm1(side, s, t); }
    }
  }

  lemma PawnTermsSpec(side: int, s: Square, t: Square)
    ensures GetBit(PawnAttacks(side, s), t) <==> Displacement(s, t) in PawnSteps(side)
  {
    forall i | 0 <= i < 2
      ensures GetBit(PawnTerms(side, s)[i], t) <==> Step(s, t, PawnSteps(side)[i].0, PawnSteps(side)[i].1)
    {
      PawnTerm(side, s, t, i);
    }
    TermsSpec(PawnTerms(side, s), PawnSteps(side), s, t);
  }

  lemma PawnStepsCapture(side: int, dr: int, df: int)
    ensures (dr, df) in PawnSteps(side) <==> dr == Forward(side) && Abs(df) == 1
  {
    if dr == Forward(side) && Abs(df) == 1 {
      var i := if (side == 0) == (df == 1) then 0 else 1;
      assert PawnSteps(side)[i] == (dr, df);
    }
  }

  /** The pawn mask holds exactly the two (or, on an edge file, one) forward diagonal squares. */
  lemma PawnAttacksSpec(side: int, s: Square, t: Square)
    ensures GetBit(PawnAttacks(side, s), t) <==> PawnCapture(side, s, t)
  {
    PawnTermsSpec(side, s, t);
    PawnStepsCapture(side, Rank(t) - Rank(s), File(t) - File(s));
  }

  /** White pawns attack only the squares numbered 7 and 9 below their own (the rank above),
      black pawns only those 7 and 9 above; never their own square and never across the a/h edge. */
  lemma PawnOffsets(side: int, s: Square, t: Square)
    requires GetBit(PawnAttacks(side, s), t)
    ensures side == 0 ==> Index(t) == Index(s) - 7 || Index(t) == Index(s) - 9
    ensures side != 0 ==> Index(t) == Index(s) + 7 || Index(t) == Index(s) + 9
    ensures t != s && Abs(File(t) - File(s)) == 1
  {
    PawnAttacksSpec(side, s, t);
    var dr, df := Rank(t) - Rank(s), File(t) - File(s);
    StepIndex(s, t, dr, df);
  }
}
