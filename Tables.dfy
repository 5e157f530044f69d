// The slider attack tables of engine/main.c: initSliderAttacks fills bishopAttacks[64][512] and
// rookAttacks[64][4096] through the magic hash, and getBishopAttacks / getRookAttacks /
// getQueenAttacks read them back. Each two-dimensional table is held row-major in one array,
// the way C lays it out: entry [square][slot] is element square * width + slot.
module Tables {
  import opened Bits
  import opened Sliders
  import opened Occupancy
  import opened Magic

  /** The second dimension of the bishop (512) and rook (4096) tables. */
  function Width(bishop: bool): int {
    if bishop then 512 else 4096
  }

  lemma RelevantBitsAt(r: int, f: int)
    requires 0 <= r < 8 && 0 <= f < 8
    ensures 5 <= BishopRelevantBits()[r][f] <= 9 && 10 <= RookRelevantBits()[r][f] <= 12
  {
  }

  /** Every entry of bishop_relevant_bits and rook_relevant_bits is a usable shift. */
  lemma RelevantBitsRange(s: Square)
    ensures 5 <= BishopBits(s) <= 9 && 10 <= RookBits(s) <= 12
  {
    Decompose(s);
    RelevantBitsAt(Rank(s), File(s));
  }

  /** The relevant bits of a square are its mask's size, and the slots they index fit a row. */
  lemma SliderBitsFit(bishop: bool, s: Square)
    ensures 1 <= SliderBits(bishop, s) <= 12
    ensures Count(SliderMask(bishop, s)) == SliderBits(bishop, s)
    ensures Pow2(SliderBits(bishop, s)) <= Width(bishop)
  {
    RelevantBitsRange(s);
    Pow2Small();
    if bishop {
      BishopMaskCount(s);
      BishopMaskIs(s);
      assert Pow2(9) == 512;
      Pow2Monotone(BishopBits(s), 9);
    } else {
      RookMaskCount(s);
      RookMaskIs(s);
      Pow2Monotone(RookBits(s), 12);
    }
  }

  /** The number of relevant squares of a mask, and the row it needs. */
  lemma MaskBits(bishop: bool, s: Square)
    ensures 1 <= Count(SliderMask(bishop, s)) <= 12
    ensures Pow2(Count(SliderMask(bishop, s))) <= Width(bishop)
  {
    SliderBitsFit(bishop, s);
  }

  /** Where row i of the bishop (or rook) table starts in its row-major array. */
  function RowStart(bishop: bool, i: int): int {
    if bishop then 512 * i else 4096 * i
  }

  /** Slot j of row i lies inside row i, and row i ends where row i + 1 starts. */
  lemma RowFits(bishop: bool, i: int, j: int)
    requires 0 <= i < 64 && 0 <= j < Width(bishop)
    ensures 0 <= RowStart(bishop, i) <= RowStart(bishop, i) + j < RowStart(bishop, i + 1) <= 64 * Width(bishop)
  {
  }

  // ----- What a filled row promises -----

  /** The k-th occupancy setOccupancy enumerates for the square's relevant mask, as a bitboard. */
  ghost function OccupancyBoard(bishop: bool, square: Square, n: int, k: nat): (o: Bitboard)
    ensures Members(o) == OccupancyOf(k, n, SliderMask(bishop, square))
  {
    FromMembers(OccupancyOf(k, n, SliderMask(bishop, square)))
  }

  /** The ray-walk attacks from the square with that occupancy, as a bitboard. */
  ghost function AttackBoard(bishop: bool, square: Square, n: int, k: nat): (a: Bitboard)
    ensures Members(a) == SliderAttacks(bishop, square, OccupancyOf(k, n, SliderMask(bishop, square)))
  {
    FromMembers(SliderAttacks(bishop, square, OccupancyOf(k, n, SliderMask(bishop, square))))
  }

  /** The magic sends two of the 2^n occupancies to one slot only when their attacks agree. */
  ghost predicate Fits(bishop: bool, square: Square, n: int, magic: Bitboard)
    requires 1 <= n <= 12
  {
    forall j: nat, k: nat {:trigger OccupancyBoard(bishop, square, n, j), OccupancyBoard(bishop, square, n, k)} ::
      j < Pow2(n) && k < Pow2(n) &&
      MagicIndex(OccupancyBoard(bishop, square, n, j), magic, n) ==
        MagicIndex(OccupancyBoard(bishop, square, n, k), magic, n) ==>
      AttackBoard(bishop, square, n, j) == AttackBoard(bishop, square, n, k)
  }

  lemma FitsAt(bishop: bool, square: Square, n: int, magic: Bitboard, j: nat, k: nat)
    requires 1 <= n <= 12 && MagicWorks(bishop, square, n, magic) && j < Pow2(n) && k < Pow2(n)
    requires MagicIndex(OccupancyBoard(bishop, square, n, j), magic, n) ==
      MagicIndex(OccupancyBoard(bishop, square, n, k), magic, n)
    ensures AttackBoard(bishop, square, n, j) == AttackBoard(bishop, square, n, k)
  {
    var a, b := OccupancyBoard(bishop, square, n, j), OccupancyBoard(bishop, square, n, k);
    assert Enumerated(bishop, square, n, a);
    assert Enumerated(bishop, square, n, b);
    MagicWorksAt(bishop, square, n, magic, a, b);
    MembersInjective(AttackBoard(bishop, square, n, j), AttackBoard(bishop, square, n, k));
  }

  /** A working magic fits: the slot test's verdict, restated on the enumerated bitboards. */
  lemma WorksFits(bishop: bool, square: Square, n: int, magic: Bitboard)
    requires 1 <= n <= 12 && MagicWorks(bishop, square, n, magic)
    ensures Fits(bishop, square, n, magic)
  {
    forall j: nat, k: nat | j < Pow2(n) && k < Pow2(n) &&
      MagicIndex(OccupancyBoard(bishop, square, n, j), magic, n) ==
        MagicIndex(OccupancyBoard(bishop, square, n, k), magic, n)
      ensures AttackBoard(bishop, square, n, j) == AttackBoard(bishop, square, n, k)
    {
      FitsAt(bishop, square, n, magic, j, k);
    }
  }

  /** Slot j of the row at base holds the attacks of the j-th occupancy, at its magic index. */
  ghost predicate Slot(table: seq<Bitboard>, base: int, bishop: bool, square: Square, n: int, magic: Bitboard, j: nat)
    requires 1 <= n <= 12
  {
    var i := base + MagicIndex(OccupancyBoard(bishop, square, n, j), magic, n);
    0 <= i < |table| && table[i] == AttackBoard(bishop, square, n, j)
  }

  /** The first k occupancies have their attacks at their slots. */
  ghost predicate StoredBelow(table: seq<Bitboard>, base: int, bishop: bool, square: Square, n: int,
                              magic: Bitboard, k: int)
    requires 1 <= n <= 12
  {
    forall j: nat :: j < k ==> Slot(table, base, bishop, square, n, magic, j)
  }

  /** Row `square` of a table holds the attacks of all 2^n enumerated occupancies of the mask. */
  ghost predicate RowFilled(table: seq<Bitboard>, bishop: bool, square: Square, n: int, magic: Bitboard) {
    1 <= n <= 12 &&
    StoredBelow(table, RowStart(bishop, Index(square)), bishop, square, n, magic, Pow2(n))
  }

  /** Storing occupancy k's attacks at its slot keeps the first k answers when the magic fits:
      an earlier occupancy sharing the slot has the same attacks. */
  lemma FillStep(table: seq<Bitboard>, t: seq<Bitboard>, base: int, bishop: bool, square: Square, n: int,
                 magic: Bitboard, k: nat)
    requires 1 <= n <= 12 && k < Pow2(n) && Fits(bishop, square, n, magic)
    requires StoredBelow(table, base, bishop, square, n, magic, k)
    requires 0 <= base + MagicIndex(OccupancyBoard(bishop, square, n, k), magic, n) < |table|
    requires t == table[base + MagicIndex(OccupancyBoard(bishop, square, n, k), magic, n) :=
                        AttackBoard(bishop, square, n, k)]
    ensures StoredBelow(t, base, bishop, square, n, magic, k + 1)
  {
    forall j: nat | j < k + 1 ensures Slot(t, base, bishop, square, n, magic, j) {
      if j < k {
        assert Slot(table, base, bishop, square, n, magic, j);
      }
    }
  }

  /** The first k answers of a row survive when the entries before end are kept. */
  lemma StoredFrame(table: seq<Bitboard>, table': seq<Bitboard>, base: int, bishop: bool, square: Square,
                    n: int, magic: Bitboard, k: int, end: int)
    requires 1 <= n <= 12 && k <= Pow2(n) && 0 <= base && base + Pow2(n) <= end <= |table| == |table'|
    requires StoredBelow(table, base, bishop, square, n, magic, k)
    requires table[..end] == table'[..end]
    ensures StoredBelow(table', base, bishop, square, n, magic, k)
  {
    forall j: nat | j < k ensures Slot(table', base, bishop, square, n, magic, j) {
      assert Slot(table, base, bishop, square, n, magic, j);
      var i := base + MagicIndex(OccupancyBoard(bishop, square, n, j), magic, n);
      assert table[..end][i] == table'[..end][i];
    }
  }

  /** A filled row stays filled when the entries before a later row start are kept. */
  lemma RowFrame(table: seq<Bitboard>, table': seq<Bitboard>, bishop: bool, square: Square, n: int,
                 magic: Bitboard, end: int)
    requires RowFilled(table, bishop, square, n, magic)
    requires RowStart(bishop, Index(square) + 1) <= end <= |table| == |table'|
    requires Pow2(n) <= Width(bishop)
    requires table[..end] == table'[..end]
    ensures RowFilled(table', bishop, square, n, magic)
  {
    StoredFrame(table, table', RowStart(bishop, Index(square)), bishop, square, n, magic, Pow2(n), end);
  }

  /** The index-th subset of the mask and its ray-walk attacks. */
  method OccupancyAttacks(square: Square, bishop: bool, attackMask: Bitboard, bits: int, index: nat)
    returns (occupancy: Bitboard, attack: Bitboard)
    requires Members(attackMask) == SliderMask(bishop, square)
    requires 1 <= bits <= 12 && bits == Count(SliderMask(bishop, square))
    ensures occupancy == OccupancyBoard(bishop, square, bits, index)
    ensures attack == AttackBoard(bishop, square, bits, index)
  {
    occupancy := SetOccupancy(index, bits, attackMask);
    attack := SliderAttacksOnTheFly(square, occupancy, bishop);
    MembersInjective(occupancy, OccupancyBoard(bishop, square, bits, index));
    MembersInjective(attack, AttackBoard(bishop, square, bits, index));
  }

  /** One pass of initSliderAttacks' index loop: the index-th subset of the mask, its magic slot,
      and its ray-walk attacks stored there, in the row starting at base. */
  method StoreOccupancy(table: array<Bitboard>, base: int, square: Square, bishop: bool, attackMask: Bitboard,
                        magic: Bitboard, bits: int, index: nat)
    modifies table
    requires 1 <= bits <= 12 && bits == Count(SliderMask(bishop, square))
    requires 0 <= base && base + Pow2(bits) <= table.Length
    requires Members(attackMask) == SliderMask(bishop, square)
    ensures var slot := base + MagicIndex(OccupancyBoard(bishop, square, bits, index), magic, bits);
      base <= slot < table.Length &&
      table[..] == old(table[..])[slot := AttackBoard(bishop, square, bits, index)]
  {
    var occupancy, attack := OccupancyAttacks(square, bishop, attackMask, bits, index);
    var magicIndex := MagicIndex(occupancy, magic, bits);
    table[base + magicIndex] := attack;
  }

  /** The loop over the occupancy indices of one square in initSliderAttacks: every subset of the
      mask is hashed with the square's magic and its ray-walk attacks are stored in that slot of
      the row starting at base. */
  method FillRow(table: array<Bitboard>, base: int, square: Square, bishop: bool, attackMask: Bitboard,
                 magic: Bitboard, bits: int)
    modifies table
    requires 1 <= bits <= 12 && bits == Count(SliderMask(bishop, square))
    requires 0 <= base && base + Pow2(bits) <= table.Length
    requires Members(attackMask) == SliderMask(bishop, square)
    requires Fits(bishop, square, bits, magic)
    ensures StoredBelow(table[..], base, bishop, square, bits, magic, Pow2(bits))
    ensures table[..base] == old(table[..base])
  {
    var relevantBitCount := PopCount(attackMask);
    var occupancyIndex := Pow2(relevantBitCount);
    ghost var prefix := table[..base];
    for index := 0 to occupancyIndex
      invariant StoredBelow(table[..], base, bishop, square, bits, magic, index)
      invariant table[..base] == prefix
    {
      ghost var before := table[..];
      StoreOccupancy(table, base, square, bishop, attackMask, magic, bits, index);
      FillStep(before, table[..], base, bishop, square, bits, magic, index);
      assert table[..base] == before[..base];
    }
  }

  /** Row i of the bishop (or rook) table lies inside the table, before row i + 1. */
  lemma RowRange(bishop: bool, i: int)
    requires 0 <= i < 64
    ensures 0 <= RowStart(bishop, i) && RowStart(bishop, i) + Width(bishop) == RowStart(bishop, i + 1)
    ensures RowStart(bishop, i + 1) <= 64 * Width(bishop)
  {
  }

  /** The row of square i is filled. */
  ghost predicate RowReady(table: seq<Bitboard>, bishop: bool, magics: seq<Bitboard>, i: int)
  {
    0 <= i < 64 && |magics| == 64 &&
    RowFilled(table, bishop, SquareOf(i), Count(SliderMask(bishop, SquareOf(i))), magics[i])
  }

  /** The rows of the squares below n are filled. */
  ghost predicate RowsIn(table: seq<Bitboard>, bishop: bool, magics: seq<Bitboard>, n: int)
  {
    |magics| == 64 && |table| == 64 * Width(bishop) && 0 <= n <= 64 &&
    forall i :: 0 <= i < n ==> RowReady(table, bishop, magics, i)
  }

  /** Rows filled before row `square` stay filled while row `square` is written. */
  lemma RowsFrame(table: seq<Bitboard>, table': seq<Bitboard>, bishop: bool, magics: seq<Bitboard>, square: int)
    requires 0 <= square < 64 && |table'| == |table|
    requires RowsIn(table, bishop, magics, square)
    requires table[..RowStart(bishop, square)] == table'[..RowStart(bishop, square)]
    ensures RowsIn(table', bishop, magics, square)
  {
    forall i | 0 <= i < square
      ensures RowReady(table', bishop, magics, i)
    {
      assert RowReady(table, bishop, magics, i);
      IndexOf(i);
      MaskBits(bishop, SquareOf(i));
      RowRange(bishop, i);
      RowRange(bishop, square);
      RowFrame(table, table', bishop, SquareOf(i), Count(SliderMask(bishop, SquareOf(i))), magics[i],
               RowStart(bishop, square));
    }
  }

  /** The relevant masks of square i are held in the bishop and rook mask arrays. */
  ghost predicate MaskReady(bishopMasks: seq<Bitboard>, rookMasks: seq<Bitboard>, i: int)
  {
    0 <= i < 64 && |bishopMasks| == 64 && |rookMasks| == 64 &&
    Members(bishopMasks[i]) == SliderMask(true, SquareOf(i)) &&
    Members(rookMasks[i]) == SliderMask(false, SquareOf(i))
  }

  /** The relevant masks of the squares below n, as held in the bishop and rook mask arrays. */
  ghost predicate MasksIn(bishopMasks: seq<Bitboard>, rookMasks: seq<Bitboard>, n: int)
  {
    |bishopMasks| == 64 && |rookMasks| == 64 && 0 <= n <= 64 &&
    forall i :: 0 <= i < n ==> MaskReady(bishopMasks, rookMasks, i)
  }

  /** Writing the masks of square n extends the masks held below n to those below n + 1. */
  lemma MasksStep(bishopMasks: seq<Bitboard>, rookMasks: seq<Bitboard>, bishopMask: Bitboard, rookMask: Bitboard,
                  n: int)
    requires MasksIn(bishopMasks, rookMasks, n) && n < 64
    requires Members(bishopMask) == SliderMask(true, SquareOf(n))
    requires Members(rookMask) == SliderMask(false, SquareOf(n))
    ensures MasksIn(bishopMasks[n := bishopMask], rookMasks[n := rookMask], n + 1)
  {
    var bishopMasks', rookMasks' := bishopMasks[n := bishopMask], rookMasks[n := rookMask];
    forall i | 0 <= i < n + 1
      ensures MaskReady(bishopMasks', rookMasks', i)
    {
      if i < n {
        assert MaskReady(bishopMasks, rookMasks, i);
      }
    }
  }

  /** Filling row n without touching the rows before it extends the filled rows to n + 1. */
  lemma RowsStep(table: seq<Bitboard>, table': seq<Bitboard>, bishop: bool, magics: seq<Bitboard>, n: int)
    requires RowsIn(table, bishop, magics, n) && n < 64 && |table'| == |table|
    requires table[..RowStart(bishop, n)] == table'[..RowStart(bishop, n)]
    requires RowReady(table', bishop, magics, n)
    ensures RowsIn(table', bishop, magics, n + 1)
  {
    RowsFrame(table, table', bishop, magics, n);
  }

  /** The ray-walk attacks of a bishop (bishop true) or a rook on an arbitrary board. */
  function RayAttacks(bishop: bool, s: Square, occ: seq<bool>): (m: seq<bool>)
    requires |occ| == 64
    ensures |m| == 64
  {
    if bishop then BishopAttacks(s, occ) else RookAttacks(s, occ)
  }

  /** Only the blockers on the relevant mask matter: the attacks of the masked board are those
      of the whole board. */
  lemma MaskedRays(bishop: bool, s: Square, occ: seq<bool>)
    requires |occ| == 64
    ensures SliderAttacks(bishop, s, Intersection(occ, SliderMask(bishop, s))) == RayAttacks(bishop, s, occ)
  {
    if bishop {
      BishopMaskIs(s);
      BishopAttacksIs(s, Intersection(occ, BishopMask(s)));
      BishopMasked(s, occ);
    } else {
      RookMaskIs(s);
      RookAttacksIs(s, Intersection(occ, RookMask(s)));
      RookMasked(s, occ);
    }
  }

  /** Every blocker arrangement on the mask is one of the enumerated occupancies. */
  lemma BoardIndex(bishop: bool, square: Square, n: int, masked: Bitboard) returns (k: nat)
    requires 1 <= n <= 12 && n == Count(SliderMask(bishop, square))
    requires forall i :: 0 <= i < 64 && Members(masked)[i] ==> SliderMask(bishop, square)[i]
    ensures k < Pow2(n) && OccupancyBoard(bishop, square, n, k) == masked
  {
    OccupancyComplete(SliderMask(bishop, square), Members(masked));
    k :| k < Pow2(n) && OccupancyOf(k, n, SliderMask(bishop, square)) == Members(masked);
    MembersInjective(OccupancyBoard(bishop, square, n, k), masked);
  }

  /** A filled row answers every blocker arrangement on the mask: the slot the magic hashes it to
      holds its attacks. */
  lemma RowLookup(table: seq<Bitboard>, base: int, bishop: bool, square: Square, n: int, magic: Bitboard,
                  masked: Bitboard)
    requires 1 <= n <= 12 && n == Count(SliderMask(bishop, square))
    requires forall i :: 0 <= i < 64 && Members(masked)[i] ==> SliderMask(bishop, square)[i]
    requires StoredBelow(table, base, bishop, square, n, magic, Pow2(n))
    ensures var i := base + MagicIndex(masked, magic, n);
      0 <= i < |table| && Members(table[i]) == SliderAttacks(bishop, square, Members(masked))
  {
    var k := BoardIndex(bishop, square, n, masked);
    assert Slot(table, base, bishop, square, n, magic, k);
  }

  /** The slot of a masked board in the square's row, with the row width taken from the mask. */
  function CountSlot(bishop: bool, square: Square, magics: seq<Bitboard>, masked: Bitboard): int
    requires |magics| == 64
  {
    MaskBits(bishop, square);
    RowStart(bishop, Index(square)) + MagicIndex(masked, magics[Index(square)], Count(SliderMask(bishop, square)))
  }

  /** A table whose rows are all filled answers every blocker arrangement on a square's mask. */
  lemma TableLookup(table: seq<Bitboard>, bishop: bool, magics: seq<Bitboard>, square: Square, n: int,
                    masked: Bitboard)
    requires RowsIn(table, bishop, magics, 64)
    requires n == Count(SliderMask(bishop, square)) && 1 <= n <= 12
    requires forall i :: 0 <= i < 64 && Members(masked)[i] ==> SliderMask(bishop, square)[i]
    ensures var slot := RowStart(bishop, Index(square)) + MagicIndex(masked, magics[Index(square)], n);
      0 <= slot < |table| && Members(table[slot]) == SliderAttacks(bishop, square, Members(masked))
  {
    var i := Index(square);
    OfIndex(square);
    assert RowReady(table, bishop, magics, i);
    RowLookup(table, RowStart(bishop, i), bishop, square, n, magics[i], masked);
  }

  /** The slot of an occupancy masked to a square's relevant squares, in a table whose rows are all
      filled, holds the attacks of that masked occupancy. */
  lemma SlotLookup(table: seq<Bitboard>, bishop: bool, magics: seq<Bitboard>, square: Square,
                   occupancy: Bitboard, masked: Bitboard)
    requires RowsIn(table, bishop, magics, 64)
    requires Members(masked) == Intersection(Members(occupancy), SliderMask(bishop, square))
    ensures var slot := CountSlot(bishop, square, magics, masked);
      0 <= slot < |table| &&
      Members(table[slot]) == SliderAttacks(bishop, square, Intersection(Members(occupancy), SliderMask(bishop, square)))
  {
    var mask := SliderMask(bishop, square);
    WithinSecond(Members(occupancy), mask);
    MaskBits(bishop, square);
    TableLookup(table, bishop, magics, square, Count(mask), masked);
    var slot := RowStart(bishop, Index(square)) + MagicIndex(masked, magics[Index(square)], Count(mask));
    assert slot == CountSlot(bishop, square, magics, masked);
    var attacks := SliderAttacks(bishop, square, Members(masked));
    assert Members(table[slot]) == attacks;
    assert attacks == SliderAttacks(bishop, square, Intersection(Members(occupancy), mask));
  }

  /** The magic number of square i hashes the square's occupancies without a harmful collision. */
  ghost predicate SquareWorks(bishop: bool, magics: seq<Bitboard>, i: int)
  {
    0 <= i < 64 && |magics| == 64 &&
    (MaskBits(bishop, SquareOf(i));
     MagicWorks(bishop, SquareOf(i), Count(SliderMask(bishop, SquareOf(i))), magics[i]))
  }

  /** Every magic number hashes its square's occupancies without a harmful collision. */
  ghost predicate AllWork(bishop: bool, magics: seq<Bitboard>)
  {
    forall i :: 0 <= i < 64 ==> SquareWorks(bishop, magics, i)
  }

  /** A working magic for every square gives a magic that fits each square's row. */
  lemma WorksAt(bishop: bool, magics: seq<Bitboard>, i: int)
    requires AllWork(bishop, magics)
    requires 0 <= i < 64
    ensures |magics| == 64 && 1 <= Count(SliderMask(bishop, SquareOf(i))) <= 12
    ensures Fits(bishop, SquareOf(i), Count(SliderMask(bishop, SquareOf(i))), magics[i])
  {
    assert SquareWorks(bishop, magics, i);
    MaskBits(bishop, SquareOf(i));
    WorksFits(bishop, SquareOf(i), Count(SliderMask(bishop, SquareOf(i))), magics[i]);
  }

  /** The slider tables of the engine: relevant masks, the two attack tables, and the magic
      numbers they are hashed with (bishop_magic_numbers and rook_magic_numbers). */
  class SliderTables {
    const bishopMasks: array<Bitboard>
    const rookMasks: array<Bitboard>
    const bishopAttacks: array<Bitboard>
    const rookAttacks: array<Bitboard>
    const bishopMagics: seq<Bitboard>
    const rookMagics: seq<Bitboard>

    ghost predicate Valid()
      reads this
    {
      bishopMasks.Length == 64 && rookMasks.Length == 64 && bishopMasks != rookMasks &&
      bishopAttacks.Length == 64 * 512 && rookAttacks.Length == 64 * 4096 &&
      |bishopMagics| == 64 && |rookMagics| == 64
    }

    /** The tables as the program starts: zeroed, with the given magic numbers. */
    constructor (bishopMagics: seq<Bitboard>, rookMagics: seq<Bitboard>)
      requires |bishopMagics| == 64 && |rookMagics| == 64
      ensures Valid()
      ensures this.bishopMagics == bishopMagics && this.rookMagics == rookMagics
      ensures fresh(this.bishopMasks) && fresh(this.rookMasks)
      ensures fresh(this.bishopAttacks) && fresh(this.rookAttacks)
    {
      this.bishopMagics := bishopMagics;
      this.rookMagics := rookMagics;
      bishopMasks := new Bitboard[64](_ => 0);
      rookMasks := new Bitboard[64](_ => 0);
      bishopAttacks := new Bitboard[64 * 512](_ => 0);
      rookAttacks := new Bitboard[64 * 4096](_ => 0);
    }

    function Table(bishop: bool): (t: array<Bitboard>)
      reads this
      ensures t == if bishop then bishopAttacks else rookAttacks
    {
      if bishop then bishopAttacks else rookAttacks
    }

    function Magics(bishop: bool): (m: seq<Bitboard>)
      reads this
      ensures m == if bishop then bishopMagics else rookMagics
    {
      if bishop then bishopMagics else rookMagics
    }

    /** Both mask arrays hold the relevant masks of every square. */
    ghost predicate MasksReady()
      reads this, bishopMasks, rookMasks
    {
      Valid() && MasksIn(bishopMasks[..], rookMasks[..], 64)
    }

    /** Every row of the bishop (or rook) table holds the attacks of every blocker arrangement of
        its mask at the arrangement's magic slot. */
    ghost predicate Filled(bishop: bool)
      reads this, Table(bishop)
    {
      Valid() && RowsIn(Table(bishop)[..], bishop, Magics(bishop), 64)
    }

    /** The mask arrays' entries for one square, once they are set. */
    lemma MaskAt(square: Square)
      requires Valid()
      ensures MasksReady() ==>
        Members(bishopMasks[Index(square)]) == SliderMask(true, square) &&
        Members(rookMasks[Index(square)]) == SliderMask(false, square)
    {
      if MasksReady() {
        OfIndex(square);
        assert MaskReady(bishopMasks[..], rookMasks[..], Index(square));
      }
    }

    /** The board masked with the square's relevant mask (`occupancy &= bishopAttackMasks[square]`). */
    function MaskedOccupancy(bishop: bool, square: Square, occupancy: Bitboard): (m: Bitboard)
      reads this, bishopMasks, rookMasks
      requires Valid()
      ensures MasksReady() ==> Members(m) == Intersection(Members(occupancy), SliderMask(bishop, square))
    {
      var i := Index(square);
      var mask := if bishop then bishopMasks[i] else rookMasks[i];
      MembersAnd(occupancy, mask);
      MaskAt(square);
      occupancy & mask
    }

    /** Where getBishopAttacks (or getRookAttacks) reads: the masked board hashed with the square's
        magic, in the square's row. */
    function LookupSlot(bishop: bool, square: Square, occupancy: Bitboard): (slot: int)
      reads this, bishopMasks, rookMasks
      requires Valid()
      ensures RowStart(bishop, Index(square)) <= slot < RowStart(bishop, Index(square) + 1) <= Table(bishop).Length
    {
      var i := Index(square);
      SliderBitsFit(bishop, square);
      RowRange(bishop, i);
      RowStart(bishop, i) + MagicIndex(MaskedOccupancy(bishop, square, occupancy), Magics(bishop)[i],
                                       SliderBits(bishop, square))
    }

    /** The table lookup shared by getBishopAttacks and getRookAttacks. Once the tables are
        initialised the answer is the attack set of the masked board. */
    function SliderLookup(bishop: bool, square: Square, occupancy: Bitboard): (a: Bitboard)
      reads this, bishopMasks, rookMasks, Table(bishop)
      requires Valid()
      ensures MasksReady() && Filled(bishop) ==>
        Members(a) == SliderAttacks(bishop, square, Intersection(Members(occupancy), SliderMask(bishop, square)))
    {
      LookupFilled(bishop, square, occupancy);
      SlotIsCount(bishop, square, occupancy);
      Table(bishop)[LookupSlot(bishop, square, occupancy)]
    }

    /** The relevant-bits table and the mask agree on the row width, so the lookup reads the
        slot the initialisation wrote. */
    lemma SlotIsCount(bishop: bool, square: Square, occupancy: Bitboard)
      requires Valid()
      ensures LookupSlot(bishop, square, occupancy) ==
        CountSlot(bishop, square, Magics(bishop), MaskedOccupancy(bishop, square, occupancy))
    {
      SliderBitsFit(bishop, square);
    }

    lemma LookupFilled(bishop: bool, square: Square, occupancy: Bitboard)
      requires Valid()
      ensures MasksReady() && Filled(bishop) ==>
        var slot := CountSlot(bishop, square, Magics(bishop), MaskedOccupancy(bishop, square, occupancy));
        0 <= slot < Table(bishop).Length &&
        Members(Table(bishop)[slot]) ==
          SliderAttacks(bishop, square, Intersection(Members(occupancy), SliderMask(bishop, square)))
    {
      if MasksReady() && Filled(bishop) {
        LookupReady(bishop, square, occupancy);
      }
    }

    /** Proof of SliderLookup's contract: the square's row of a filled table, read through the
        square's mask. */
    lemma LookupReady(bishop: bool, square: Square, occupancy: Bitboard)
      requires MasksReady() && Filled(bishop)
      ensures var slot := CountSlot(bishop, square, Magics(bishop), MaskedOccupancy(bishop, square, occupancy));
        0 <= slot < Table(bishop).Length &&
        Members(Table(bishop)[slot]) ==
          SliderAttacks(bishop, square, Intersection(Members(occupancy), SliderMask(bishop, square)))
    {
      var table := Table(bishop);
      var masked := MaskedOccupancy(bishop, square, occupancy);
      SlotLookup(table[..], bishop, Magics(bishop), square, occupancy, masked);
      var slot := CountSlot(bishop, square, Magics(bishop), masked);
      assert table[..][slot] == table[slot];
    }

    /** getBishopAttacks: once the tables are initialised, the bishop's ray-walk attacks on the
        whole board. */
    function GetBishopAttacks(square: Square, occupancy: Bitboard): (a: Bitboard)
      reads this, bishopMasks, rookMasks, bishopAttacks
      requires Valid()
      ensures MasksReady() && Filled(true) ==> Members(a) == BishopAttacks(square, Members(occupancy))
    {
      MaskedRays(true, square, Members(occupancy));
      SliderLookup(true, square, occupancy)
    }

    /** getRookAttacks: once the tables are initialised, the rook's ray-walk attacks on the whole
        board. */
    function GetRookAttacks(square: Square, occupancy: Bitboard): (a: Bitboard)
      reads this, bishopMasks, rookMasks, rookAttacks
      requires Valid()
      ensures MasksReady() && Filled(false) ==> Members(a) == RookAttacks(square, Members(occupancy))
    {
      MaskedRays(false, square, Members(occupancy));
      SliderLookup(false, square, occupancy)
    }

    /** getQueenAttacks: the bishop lookup and the rook lookup of the same board, combined. */
    function GetQueenAttacks(square: Square, occupancy: Bitboard): (a: Bitboard)
      reads this, bishopMasks, rookMasks, bishopAttacks, rookAttacks
      requires Valid()
      ensures MasksReady() && Filled(true) && Filled(false) ==>
        Members(a) == Union(BishopAttacks(square, Members(occupancy)), RookAttacks(square, Members(occupancy)))
    {
      var bishopAttacks := GetBishopAttacks(square, occupancy);
      var rookAttacks := GetRookAttacks(square, occupancy);
      MembersOr(bishopAttacks, rookAttacks);
      bishopAttacks | rookAttacks
    }

    /** One square of initSliderAttacks: both relevant masks, then the square's row of the
        bishop (or rook) table. */
    method InitSquare(bishop: bool, square: int)
      requires Valid() && AllWork(bishop, Magics(bishop)) && 0 <= square < 64
      modifies bishopMasks, rookMasks, Table(bishop)
      ensures Members(bishopMasks[square]) == SliderMask(true, SquareOf(square))
      ensures Members(rookMasks[square]) == SliderMask(false, SquareOf(square))
      ensures bishopMasks[..] == old(bishopMasks[..])[square := bishopMasks[square]]
      ensures rookMasks[..] == old(rookMasks[..])[square := rookMasks[square]]
      ensures RowReady(Table(bishop)[..], bishop, Magics(bishop), square)
      ensures Table(bishop)[..RowStart(bishop, square)] == old(Table(bishop)[..RowStart(bishop, square)])
    {
      var sq := SquareOf(square);
      IndexOf(square);
      var bishopMask := MaskSliderAttacks(sq, true);
      var rookMask := MaskSliderAttacks(sq, false);
      bishopMasks[square] := bishopMask;
      rookMasks[square] := rookMask;
      var attackMask := if bishop then bishopMasks[square] else rookMasks[square];
      SliderBitsFit(bishop, sq);
      var bits := SliderBits(bishop, sq);
      WorksAt(bishop, Magics(bishop), square);
      RowRange(bishop, square);
      FillRow(Table(bishop), RowStart(bishop, square), sq, bishop, attackMask, Magics(bishop)[square], bits);
    }

    /** One pass of initSliderAttacks' square loop: the squares below square + 1 are done. */
    method InitStep(bishop: bool, square: int)
      requires Valid() && AllWork(bishop, Magics(bishop)) && 0 <= square < 64
      requires MasksIn(bishopMasks[..], rookMasks[..], square)
      requires RowsIn(Table(bishop)[..], bishop, Magics(bishop), square)
      modifies bishopMasks, rookMasks, Table(bishop)
      ensures MasksIn(bishopMasks[..], rookMasks[..], square + 1)
      ensures RowsIn(Table(bishop)[..], bishop, Magics(bishop), square + 1)
    {
      ghost var masks, rooks, rows := bishopMasks[..], rookMasks[..], Table(bishop)[..];
      InitSquare(bishop, square);
      MasksStep(masks, rooks, bishopMasks[square], rookMasks[square], square);
      RowsStep(rows, Table(bishop)[..], bishop, Magics(bishop), square);
    }

    /** initSliderAttacks: for every square set both relevant masks, then fill the square's row of
        the bishop (or rook) table. The other table is left as it was. */
    method InitSliderAttacks(bishop: bool)
      requires Valid() && AllWork(bishop, Magics(bishop))
      modifies bishopMasks, rookMasks, Table(bishop)
      ensures MasksReady() && Filled(bishop)
    {
      var table := Table(bishop);
      for square := 0 to 64
        invariant MasksIn(bishopMasks[..], rookMasks[..], square)
        invariant RowsIn(table[..], bishop, Magics(bishop), square)
      {
        InitStep(bishop, square);
      }
    }
  }
}
