// The magic-number acceptance test of findMagicNumber, engine/main.c: a candidate multiplier is
// kept only when it maps every enumerated blocker arrangement to a table slot that no
// arrangement with different attacks also maps to.
module Magic {
  import opened Bits
  import opened Sliders
  import opened Occupancy

  // ----- Powers of two -----

  lemma {:induction false} Pow2Add(a: nat, b: nat)
    ensures Pow2(a + b) == Pow2(a) * Pow2(b)
    decreases a
  {
    if a > 0 {
      Pow2Add(a - 1, b);
    }
  }

  lemma {:induction false} Pow2Monotone(a: nat, b: nat)
    requires a <= b
    ensures Pow2(a) <= Pow2(b)
    decreases b
  {
    if a < b {
      Pow2Monotone(a, b - 1);
    }
  }

  lemma Pow2Small()
    ensures Pow2(4) == 16 && Pow2(8) == 256 && Pow2(12) == 4096
  {
    assert Pow2(2) == 4;
    Pow2Add(2, 2);
    Pow2Add(4, 4);
    Pow2Add(8, 4);
  }

  /** A table of 2^bits slots fits the engine's 4096-entry arrays. */
  lemma Pow2Fits(bits: nat)
    requires bits <= 12
    ensures Pow2(bits) <= 4096
  {
    Pow2Small();
    Pow2Monotone(bits, 12);
  }

  lemma Pow2Of64()
    ensures Pow2(64) == 0x1_0000_0000_0000_0000
  {
    Pow2Small();
    Pow2Add(8, 8);
    assert Pow2(16) == 0x1_0000;
    Pow2Add(16, 16);
    assert Pow2(32) == 0x1_0000_0000;
    Pow2Add(32, 32);
  }

  lemma DivBound(x: int, p: int, q: int)
    requires 0 <= x < p * q && p > 0
    ensures 0 <= x / p < q
  {
  }

  lemma ShiftBound(v: int, bits: int)
    requires 0 <= v < 0x1_0000_0000_0000_0000 && 1 <= bits <= 64
    ensures 0 <= v / Pow2(64 - bits) < Pow2(bits)
  {
    var p, q := Pow2(64 - bits), Pow2(bits);
    Pow2Add(64 - bits, bits);
    assert (64 - bits) + bits == 64;
    Pow2Of64();
    assert p * q == 0x1_0000_0000_0000_0000;
    DivBound(v, p, q);
  }

  lemma BitboardRange(x: Bitboard)
    ensures x as int < 0x1_0000_0000_0000_0000
  {
  }

  // ----- The magic index -----

  /** `(occupancy * magic) >> (64 - bits)`: the top `bits` bits of the wrapping 64-bit product
      (an unsigned right shift by 64 - bits is a division by 2^(64 - bits)). It always lands
      inside a table of 2^bits slots. */
  function MagicIndex(occupancy: Bitboard, magic: Bitboard, bits: int): (i: int)
    requires 1 <= bits <= 64
    ensures 0 <= i < Pow2(bits)
  {
    var product := (occupancy * magic) as int;
    BitboardRange(occupancy * magic);
    ShiftBound(product, bits);
    product / Pow2(64 - bits)
  }

  /** The magic index of each enumerated occupancy. */
  function Indices(occupancies: seq<Bitboard>, magic: Bitboard, bits: int): (idx: seq<int>)
    requires 1 <= bits <= 64
    ensures |idx| == |occupancies|
    ensures forall k :: 0 <= k < |idx| ==> 0 <= idx[k] < Pow2(bits)
  {
    seq(|occupancies|, k requires 0 <= k < |occupancies| => MagicIndex(occupancies[k], magic, bits))
  }

  /** The cheap first filter: at least six bits in the top byte of mask * magic. */
  predicate Prefilter(attackMask: Bitboard, magic: Bitboard) {
    PopCount((attackMask * magic) & 0xFF00_0000_0000_0000) >= 6
  }

  /** What a magic number is for: enumerated occupancies sharing a slot share their attacks. */
  predicate Collisionless(idx: seq<int>, attacks: seq<Bitboard>)
    requires |idx| == |attacks|
  {
    forall j, k :: 0 <= j < |idx| && 0 <= k < |idx| && idx[j] == idx[k] ==> attacks[j] == attacks[k]
  }

  // ----- The used-attacks table, entry by entry -----

  /** Slot m of usedAttacks after the first k occupancies went in without a clash:
      0 (the "unused" mark) until an occupancy with index m stores its attacks there. */
  function Stored(idx: seq<int>, attacks: seq<Bitboard>, k: int, m: int): Bitboard
    requires |idx| == |attacks| && 0 <= k <= |idx|
    decreases k
  {
    if k == 0 then 0
    else
      var s := Stored(idx, attacks, k - 1, m);
      if idx[k - 1] == m && s == 0 then attacks[k - 1] else s
  }

  /** The whole usedAttacks table after k occupancies. */
  function Used(idx: seq<int>, attacks: seq<Bitboard>, k: int): (used: seq<Bitboard>)
    requires |idx| == |attacks| && 0 <= k <= |idx|
    ensures |used| == 4096
  {
    seq(4096, m => Stored(idx, attacks, k, m))
  }

  /** Occupancy k either fills its empty slot or leaves the table as it was. */
  lemma UsedStep(idx: seq<int>, attacks: seq<Bitboard>, k: int)
    requires |idx| == |attacks| && 0 <= k < |idx| && 0 <= idx[k] < 4096
    ensures Used(idx, attacks, k)[idx[k]] == Stored(idx, attacks, k, idx[k])
    ensures Used(idx, attacks, k + 1) ==
      if Stored(idx, attacks, k, idx[k]) == 0 then Used(idx, attacks, k)[idx[k] := attacks[k]]
      else Used(idx, attacks, k)
  {
  }

  /** Occupancy k meets a used slot holding different attacks. */
  predicate Clash(idx: seq<int>, attacks: seq<Bitboard>, k: int)
    requires |idx| == |attacks| && 0 <= k < |idx|
  {
    var s := Stored(idx, attacks, k, idx[k]);
    s != 0 && s != attacks[k]
  }

  /** None of the first k occupancies clashes. */
  predicate NoClash(idx: seq<int>, attacks: seq<Bitboard>, k: int)
    requires |idx| == |attacks| && 0 <= k <= |idx|
    decreases k
  {
    k == 0 || (NoClash(idx, attacks, k - 1) && !Clash(idx, attacks, k - 1))
  }

  lemma {:induction false} NoClashPrefix(idx: seq<int>, attacks: seq<Bitboard>, j: int, k: int)
    requires |idx| == |attacks| && 0 <= j <= k <= |idx| && NoClash(idx, attacks, k)
    ensures NoClash(idx, attacks, j)
    decreases k
  {
    if j < k {
      NoClashPrefix(idx, attacks, j, k - 1);
    }
  }

  /** A used slot holds the attacks of some earlier occupancy with that index. */
  lemma {:induction false} StoredFrom(idx: seq<int>, attacks: seq<Bitboard>, k: int, m: int)
    requires |idx| == |attacks| && 0 <= k <= |idx| && Stored(idx, attacks, k, m) != 0
    ensures exists j :: 0 <= j < k && idx[j] == m && attacks[j] == Stored(idx, attacks, k, m)
    decreases k
  {
    if Stored(idx, attacks, k - 1, m) != 0 {
      StoredFrom(idx, attacks, k - 1, m);
      var j :| 0 <= j < k - 1 && idx[j] == m && attacks[j] == Stored(idx, attacks, k - 1, m);
      assert idx[j] == m && attacks[j] == Stored(idx, attacks, k, m);
    } else {
      assert idx[k - 1] == m && attacks[k - 1] == Stored(idx, attacks, k, m);
    }
  }

  /** A collision-free magic never clashes. */
  lemma {:induction false} CollisionlessNoClash(idx: seq<int>, attacks: seq<Bitboard>, k: int)
    requires |idx| == |attacks| && 0 <= k <= |idx| && Collisionless(idx, attacks)
    ensures NoClash(idx, attacks, k)
    decreases k
  {
    if k > 0 {
      CollisionlessNoClash(idx, attacks, k - 1);
      if Stored(idx, attacks, k - 1, idx[k - 1]) != 0 {
        StoredFrom(idx, attacks, k - 1, idx[k - 1]);
      }
    }
  }

  /** With no empty attack set, once an occupancy has gone in without a clash its slot holds
      its attacks. */
  lemma {:induction false} StoredKeeps(idx: seq<int>, attacks: seq<Bitboard>, k: int, j: int)
    requires |idx| == |attacks| && 0 <= j < k <= |idx| && NoClash(idx, attacks, k)
    requires forall i :: 0 <= i < |attacks| ==> attacks[i] != 0
    ensures Stored(idx, attacks, k, idx[j]) == attacks[j]
    decreases k
  {
    if j < k - 1 {
      StoredKeeps(idx, attacks, k - 1, j);
      if idx[k - 1] == idx[j] {
        assert !Clash(idx, attacks, k - 1);
      }
    }
  }

  /** Without a clash, and with no empty attack set, the magic is collision-free: this is why
      0 can serve as the "unused" mark of usedAttacks. */
  lemma NoClashCollisionless(idx: seq<int>, attacks: seq<Bitboard>)
    requires |idx| == |attacks| && NoClash(idx, attacks, |idx|)
    requires forall i :: 0 <= i < |attacks| ==> attacks[i] != 0
    ensures Collisionless(idx, attacks)
  {
    forall j, k | 0 <= j < |idx| && 0 <= k < |idx| && idx[j] == idx[k]
      ensures attacks[j] == attacks[k]
    {
      StoredKeeps(idx, attacks, |idx|, j);
      StoredKeeps(idx, attacks, |idx|, k);
    }
  }

  /** An empty attack set would defeat the "unused" mark: the second arrangement overwrites
      the first unnoticed although their attacks differ. */
  lemma ZeroMarkNeedsAttacks()
    ensures var idx, attacks := [0, 0], [0 as Bitboard, 1];
      NoClash(idx, attacks, 2) && !Collisionless(idx, attacks)
  {
    var idx, attacks := [0, 0], [0 as Bitboard, 1];
    assert Stored(idx, attacks, 1, 0) == 0;
    assert idx[0] == idx[1] && attacks[0] != attacks[1];
  }

  // ----- The acceptance loop -----

  /** How the loop ends: at a clash the candidate fails, having run through every occupancy
      it passes. */
  lemma Verdict(idx: seq<int>, attacks: seq<Bitboard>, index: int, fail: bool)
    requires |idx| == |attacks| && 0 <= index <= |idx| && NoClash(idx, attacks, index)
    requires fail ==> index < |idx| && Clash(idx, attacks, index)
    requires !fail ==> index == |idx|
    ensures !fail <==> NoClash(idx, attacks, |idx|)
  {
    if fail && NoClash(idx, attacks, |idx|) {
      NoClashPrefix(idx, attacks, index + 1, |idx|);
    }
  }

  /** One step of the slot test on the table as a value: an empty slot takes occupancy k's
      attacks, a slot holding the same attacks is kept, anything else is a clash. */
  lemma Advance(idx: seq<int>, attacks: seq<Bitboard>, k: int, used: seq<Bitboard>)
    requires |idx| == |attacks| && 0 <= k < |idx| && 0 <= idx[k] < 4096
    requires NoClash(idx, attacks, k) && used == Used(idx, attacks, k)
    ensures used[idx[k]] == 0 ==>
      NoClash(idx, attacks, k + 1) && Used(idx, attacks, k + 1) == used[idx[k] := attacks[k]]
    ensures used[idx[k]] == attacks[k] ==>
      NoClash(idx, attacks, k + 1) && Used(idx, attacks, k + 1) == used
    ensures used[idx[k]] != 0 && used[idx[k]] != attacks[k] ==> Clash(idx, attacks, k)
  {
    UsedStep(idx, attacks, k);
  }

  /** The slot test of findMagicNumber for one candidate: fill a cleared usedAttacks table
      occupancy by occupancy and reject the candidate at the first clash. */
  method TryMagic(occupancies: array<Bitboard>, attacks: array<Bitboard>, relevantBits: int,
                  magic: Bitboard) returns (accepted: bool)
    requires 1 <= relevantBits <= 12
    requires Pow2(relevantBits) <= occupancies.Length && Pow2(relevantBits) <= attacks.Length
    ensures var n := Pow2(relevantBits);
      accepted <==> NoClash(Indices(occupancies[..n], magic, relevantBits), attacks[..n], n)
  {
    var occupancyIndices := Pow2(relevantBits);
    Pow2Fits(relevantBits);
    ghost var idx := Indices(occupancies[..occupancyIndices], magic, relevantBits);
    ghost var atts := attacks[..occupancyIndices];
    var usedAttacks := new Bitboard[4096](_ => 0);
    assert usedAttacks[..] == Used(idx, atts, 0);
    var index, fail := 0, false;
    while !fail && index < occupancyIndices
      invariant 0 <= index <= occupancyIndices && !fail
      invariant NoClash(idx, atts, index)
      invariant usedAttacks[..] == Used(idx, atts, index)
    {
      var magicIndex := MagicIndex(occupancies[index], magic, relevantBits);
      assert magicIndex == idx[index];
      assert attacks[index] == atts[index];
      Advance(idx, atts, index, usedAttacks[..]);
      if usedAttacks[magicIndex] == 0 {
        usedAttacks[magicIndex] := attacks[index];
      } else if usedAttacks[magicIndex] != attacks[index] {
        fail := true;
        break;
      }
      index := index + 1;
    }
    Verdict(idx, atts, index, fail);
    accepted := !fail;
  }

  /** One pass of findMagicNumber's candidate loop: the top-byte filter, then the slot test. */
  method CandidateAccepted(attackMask: Bitboard, occupancies: array<Bitboard>, attacks: array<Bitboard>,
                           relevantBits: int, magic: Bitboard) returns (accepted: bool)
    requires 1 <= relevantBits <= 12
    requires Pow2(relevantBits) <= occupancies.Length && Pow2(relevantBits) <= attacks.Length
    ensures var n := Pow2(relevantBits);
      accepted <==> (Prefilter(attackMask, magic) &&
                     NoClash(Indices(occupancies[..n], magic, relevantBits), attacks[..n], n))
  {
    if !Prefilter(attackMask, magic) {
      return false;
    }
    accepted := TryMagic(occupancies, attacks, relevantBits, magic);
  }

  // ----- findMagicNumber for one candidate -----

  /** The relevant mask of a bishop (bishop true) or a rook, in closed form. */
  function SliderMask(bishop: bool, s: Square): (m: seq<bool>)
    ensures |m| == 64
  {
    if bishop then BishopMaskOf(Rank(s), File(s)) else RookMaskOf(Rank(s), File(s))
  }

  /** The ray-walk attacks of a bishop (bishop true) or a rook, in closed form. */
  function SliderAttacks(bishop: bool, s: Square, occ: seq<bool>): (m: seq<bool>)
    requires |occ| == 64
    ensures |m| == 64
  {
    if bishop then BishopAttacksOf(Rank(s), File(s), occ) else RookAttacksOf(Rank(s), File(s), occ)
  }

  /** The relevant-bits table entry of a bishop (bishop true) or a rook. */
  function SliderBits(bishop: bool, s: Square): int {
    if bishop then BishopBits(s) else RookBits(s)
  }

  /** Entry k of the enumeration: the k-th subset of the relevant mask and its attacks. */
  predicate Entry(bishop: bool, square: Square, relevantBits: nat, k: nat,
                  occupancy: Bitboard, attack: Bitboard)
  {
    Members(occupancy) == OccupancyOf(k, relevantBits, SliderMask(bishop, square)) &&
    Members(attack) == SliderAttacks(bishop, square, Members(occupancy)) &&
    attack != 0
  }

  /** Every entry so far is laid out. */
  predicate Entries(bishop: bool, square: Square, relevantBits: nat,
                    occupancies: seq<Bitboard>, attacks: seq<Bitboard>)
  {
    |occupancies| == |attacks| &&
    forall k :: 0 <= k < |occupancies| ==> Entry(bishop, square, relevantBits, k, occupancies[k], attacks[k])
  }

  /** One more entry, the next subset with its attacks. */
  lemma EntriesAppend(bishop: bool, square: Square, relevantBits: nat,
                      occupancies: seq<Bitboard>, attacks: seq<Bitboard>, occupancy: Bitboard, attack: Bitboard)
    requires Entries(bishop, square, relevantBits, occupancies, attacks)
    requires Members(occupancy) == OccupancyOf(|occupancies|, relevantBits, SliderMask(bishop, square))
    requires Members(attack) == SliderAttacks(bishop, square, Members(occupancy)) && attack != 0
    ensures Entries(bishop, square, relevantBits, occupancies + [occupancy], attacks + [attack])
  {
    var occs, atts := occupancies + [occupancy], attacks + [attack];
    forall k | 0 <= k < |occs| ensures Entry(bishop, square, relevantBits, k, occs[k], atts[k]) {
      if k < |occupancies| {
        assert occs[k] == occupancies[k] && atts[k] == attacks[k];
        assert Entry(bishop, square, relevantBits, k, occupancies[k], attacks[k]);
      } else {
        assert occs[k] == occupancy && atts[k] == attack;
      }
    }
  }

  /** The first 2^relevantBits entries of both arrays are laid out. */
  predicate Laid(bishop: bool, square: Square, relevantBits: nat,
                 occupancies: seq<Bitboard>, attacks: seq<Bitboard>)
  {
    |occupancies| == Pow2(relevantBits) && Entries(bishop, square, relevantBits, occupancies, attacks)
  }

  /** `bishop ? maskBishopAttacks(square) : maskRookAttacks(square)` */
  method MaskSliderAttacks(square: Square, bishop: bool) returns (attackMask: Bitboard)
    ensures Members(attackMask) == SliderMask(bishop, square)
  {
    if bishop {
      attackMask := MaskBishopAttacks(square);
      BishopMaskIs(square);
    } else {
      attackMask := MaskRookAttacks(square);
      RookMaskIs(square);
    }
  }

  /** `bishop ? getBishopAttacksOnTheFly(square, occupancy) : getRookAttacksOnTheFly(square, occupancy)` */
  method SliderAttacksOnTheFly(square: Square, occupancy: Bitboard, bishop: bool) returns (attack: Bitboard)
    ensures Members(attack) == SliderAttacks(bishop, square, Members(occupancy))
    ensures attack != 0
  {
    if bishop {
      attack := BishopAttacksOnTheFly(square, occupancy);
      BishopAttacksIs(square, Members(occupancy));
    } else {
      attack := RookAttacksOnTheFly(square, occupancy);
      RookAttacksIs(square, Members(occupancy));
    }
  }

  /** The occupancies and attacks findMagicNumber lays out before trying candidates: entry
      `index` holds the index-th subset of the relevant mask and its ray-walk attacks. */
  method Enumerate(square: Square, relevantBits: int, bishop: bool)
    returns (attackMask: Bitboard, occupancies: array<Bitboard>, attacks: array<Bitboard>)
    requires 1 <= relevantBits <= 12 && relevantBits <= Count(SliderMask(bishop, square))
    ensures Members(attackMask) == SliderMask(bishop, square)
    ensures occupancies.Length == 4096 && attacks.Length == 4096 && Pow2(relevantBits) <= 4096
    ensures Laid(bishop, square, relevantBits, occupancies[..Pow2(relevantBits)], attacks[..Pow2(relevantBits)])
  {
    attackMask := MaskSliderAttacks(square, bishop);
    occupancies := new Bitboard[4096];
    attacks := new Bitboard[4096];
    var occupancyIndices := Pow2(relevantBits);
    Pow2Fits(relevantBits);
    for index := 0 to occupancyIndices
      invariant Entries(bishop, square, relevantBits, occupancies[..index], attacks[..index])
    {
      var occupancy := SetOccupancy(index, relevantBits, attackMask);
      var attack := SliderAttacksOnTheFly(square, occupancy, bishop);
      ghost var occs, atts := occupancies[..index], attacks[..index];
      EntriesAppend(bishop, square, relevantBits, occs, atts, occupancy, attack);
      occupancies[index] := occupancy;
      attacks[index] := attack;
      assert occupancies[..index + 1] == occs + [occupancy];
      assert attacks[..index + 1] == atts + [attack];
    }
  }

  /** An occupancy the enumeration produces for this square. */
  ghost predicate Enumerated(bishop: bool, square: Square, relevantBits: nat, occupancy: Bitboard) {
    exists k: nat :: k < Pow2(relevantBits) &&
      Members(occupancy) == OccupancyOf(k, relevantBits, SliderMask(bishop, square))
  }

  /** A working magic: enumerated occupancies with the same magic index have the same attacks. */
  ghost predicate MagicWorks(bishop: bool, square: Square, relevantBits: int, magic: Bitboard)
    requires 1 <= relevantBits <= 12
  {
    forall a: Bitboard, b: Bitboard
      {:trigger Enumerated(bishop, square, relevantBits, a), Enumerated(bishop, square, relevantBits, b)} ::
      Enumerated(bishop, square, relevantBits, a) && Enumerated(bishop, square, relevantBits, b) &&
      MagicIndex(a, magic, relevantBits) == MagicIndex(b, magic, relevantBits) ==>
      SliderAttacks(bishop, square, Members(a)) == SliderAttacks(bishop, square, Members(b))
  }

  /** Two enumerated occupancies that a working magic sends to the same slot have the same attacks. */
  lemma MagicWorksAt(bishop: bool, square: Square, relevantBits: int, magic: Bitboard, a: Bitboard, b: Bitboard)
    requires 1 <= relevantBits <= 12 && MagicWorks(bishop, square, relevantBits, magic)
    requires Enumerated(bishop, square, relevantBits, a) && Enumerated(bishop, square, relevantBits, b)
    requires MagicIndex(a, magic, relevantBits) == MagicIndex(b, magic, relevantBits)
    ensures SliderAttacks(bishop, square, Members(a)) == SliderAttacks(bishop, square, Members(b))
  {
  }

  /** The attacks of a laid-out entry belong to its occupancy, whichever board spells it. */
  lemma EntryOf(bishop: bool, square: Square, relevantBits: nat, occupancies: seq<Bitboard>,
                attacks: seq<Bitboard>, a: Bitboard)
    requires Laid(bishop, square, relevantBits, occupancies, attacks)
    requires Enumerated(bishop, square, relevantBits, a)
    ensures exists k :: (0 <= k < |occupancies| && occupancies[k] == a &&
                         Members(attacks[k]) == SliderAttacks(bishop, square, Members(a)))
  {
    var k: nat :| k < Pow2(relevantBits) &&
      Members(a) == OccupancyOf(k, relevantBits, SliderMask(bishop, square));
    assert Entry(bishop, square, relevantBits, k, occupancies[k], attacks[k]);
    MembersInjective(a, occupancies[k]);
  }

  /** Two enumerated occupancies in the same slot of a collision-free magic share attacks. */
  lemma SameSlot(bishop: bool, square: Square, relevantBits: int, magic: Bitboard,
                 occupancies: seq<Bitboard>, attacks: seq<Bitboard>, a: Bitboard, b: Bitboard)
    requires 1 <= relevantBits <= 12
    requires Laid(bishop, square, relevantBits, occupancies, attacks)
    requires Collisionless(Indices(occupancies, magic, relevantBits), attacks)
    requires Enumerated(bishop, square, relevantBits, a) && Enumerated(bishop, square, relevantBits, b)
    requires MagicIndex(a, magic, relevantBits) == MagicIndex(b, magic, relevantBits)
    ensures SliderAttacks(bishop, square, Members(a)) == SliderAttacks(bishop, square, Members(b))
  {
    var idx := Indices(occupancies, magic, relevantBits);
    EntryOf(bishop, square, relevantBits, occupancies, attacks, a);
    var j :| 0 <= j < |occupancies| && occupancies[j] == a &&
      Members(attacks[j]) == SliderAttacks(bishop, square, Members(a));
    EntryOf(bishop, square, relevantBits, occupancies, attacks, b);
    var k :| 0 <= k < |occupancies| && occupancies[k] == b &&
      Members(attacks[k]) == SliderAttacks(bishop, square, Members(b));
    assert idx[j] == idx[k];
  }

  /** A collision-free laid-out magic works. */
  lemma CollisionlessWorks(bishop: bool, square: Square, relevantBits: int, magic: Bitboard,
                           occupancies: seq<Bitboard>, attacks: seq<Bitboard>)
    requires 1 <= relevantBits <= 12
    requires Laid(bishop, square, relevantBits, occupancies, attacks)
    requires Collisionless(Indices(occupancies, magic, relevantBits), attacks)
    ensures MagicWorks(bishop, square, relevantBits, magic)
  {
    forall a: Bitboard, b: Bitboard |
      Enumerated(bishop, square, relevantBits, a) && Enumerated(bishop, square, relevantBits, b) &&
      MagicIndex(a, magic, relevantBits) == MagicIndex(b, magic, relevantBits)
      ensures SliderAttacks(bishop, square, Members(a)) == SliderAttacks(bishop, square, Members(b))
    {
      SameSlot(bishop, square, relevantBits, magic, occupancies, attacks, a, b);
    }
  }

  /** A working magic is collision-free on the laid-out arrays. */
  lemma WorksCollisionless(bishop: bool, square: Square, relevantBits: int, magic: Bitboard,
                           occupancies: seq<Bitboard>, attacks: seq<Bitboard>)
    requires 1 <= relevantBits <= 12
    requires Laid(bishop, square, relevantBits, occupancies, attacks)
    requires MagicWorks(bishop, square, relevantBits, magic)
    ensures Collisionless(Indices(occupancies, magic, relevantBits), attacks)
  {
    var idx := Indices(occupancies, magic, relevantBits);
    forall j, k | 0 <= j < |idx| && 0 <= k < |idx| && idx[j] == idx[k]
      ensures attacks[j] == attacks[k]
    {
      assert Entry(bishop, square, relevantBits, j, occupancies[j], attacks[j]);
      assert Entry(bishop, square, relevantBits, k, occupancies[k], attacks[k]);
      assert Enumerated(bishop, square, relevantBits, occupancies[j]);
      assert Enumerated(bishop, square, relevantBits, occupancies[k]);
      MembersInjective(attacks[j], attacks[k]);
    }
  }

  /** findMagicNumber's verdict on one candidate: it returns the candidate exactly when the
      top-byte filter passes on the relevant mask and the magic works for every enumerated
      occupancy. */
  method FindMagicAccepts(square: Square, relevantBits: int, bishop: bool, magic: Bitboard)
    returns (attackMask: Bitboard, accepted: bool)
    requires 1 <= relevantBits <= 12 && relevantBits <= Count(SliderMask(bishop, square))
    ensures Members(attackMask) == SliderMask(bishop, square)
    ensures accepted <==> (Prefilter(attackMask, magic) && MagicWorks(bishop, square, relevantBits, magic))
  {
    var occupancies, attacks;
    attackMask, occupancies, attacks := Enumerate(square, relevantBits, bishop);
    accepted := CandidateAccepted(attackMask, occupancies, attacks, relevantBits, magic);
    ghost var n := Pow2(relevantBits);
    ghost var occs, atts := occupancies[..n], attacks[..n];
    Verdicts(bishop, square, relevantBits, magic, occs, atts);
  }

  /** The slot test passes exactly for a working magic, given the laid-out arrays. */
  lemma Verdicts(bishop: bool, square: Square, relevantBits: int, magic: Bitboard,
                 occupancies: seq<Bitboard>, attacks: seq<Bitboard>)
    requires 1 <= relevantBits <= 12
    requires Laid(bishop, square, relevantBits, occupancies, attacks)
    ensures NoClash(Indices(occupancies, magic, relevantBits), attacks, |attacks|) <==>
      MagicWorks(bishop, square, relevantBits, magic)
  {
    var idx := Indices(occupancies, magic, relevantBits);
    forall i | 0 <= i < |attacks| ensures attacks[i] != 0 {
      assert Entry(bishop, square, relevantBits, i, occupancies[i], attacks[i]);
    }
    if NoClash(idx, attacks, |attacks|) {
      NoClashCollisionless(idx, attacks);
      CollisionlessWorks(bishop, square, relevantBits, magic, occupancies, attacks);
    }
    if MagicWorks(bishop, square, relevantBits, magic) {
      WorksCollisionless(bishop, square, relevantBits, magic, occupancies, attacks);
      CollisionlessNoClash(idx, attacks, |attacks|);
    }
  }
}
