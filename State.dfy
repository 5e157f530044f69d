// The board state of engine/main.c (bitboards[12], occupancies[3], side, enpassant, castle), the
// copy that copy_board takes of it, and what makeMove does to it. Apply below is makeMove's
// update written as a function of the copy; the engine class in Engine.dfy performs it in place.
module State {
  import opened Bits
  import opened Leapers
  import opened Sliders
  import opened Moves

  // Piece boards: white pawn, knight, bishop, rook, queen, king are 0..5; the black ones 6..11.
  const Pawn := 0
  const Knight := 1
  const Bishop := 2
  const Rook := 3
  const Queen := 4
  const King := 5

  /** Index of the occupancy of both colours (white is 0, black is 1). */
  const Both := 2

  /** The en-passant square when there is none (no_sq). */
  const NoSquare := 64

  /** Castling-right bits: white king side, white queen side, black king side, black queen side. */
  const WhiteKingSide: bv4 := 1
  const WhiteQueenSide: bv4 := 2
  const BlackKingSide: bv4 := 4
  const BlackQueenSide: bv4 := 8

  /** The twelve piece boards of one side start at 6 * side. */
  function BoardOf(side: int, kind: int): int { 6 * side + kind }

  /** The copy copy_board takes and restore_board puts back. */
  datatype Position = Position(bitboards: seq<Bitboard>, occupancies: seq<Bitboard>,
                               side: int, enpassant: int, castle: bv4)

  /** The shape of the globals: twelve boards, three occupancies, a side to move that is white or
      black, and an en-passant square that is a square or no_sq. */
  predicate Valid(p: Position) {
    |p.bitboards| == 12 && |p.occupancies| == 3 && (p.side == White || p.side == Black) &&
    0 <= p.enpassant <= NoSquare
  }

  // ----- castling_rights -----

  /** castling_rights: the mask castle is ANDed with when a move leaves from or arrives on a square. */
  function CastlingRights(s: int): bv4 {
    if s == 0 then 7           // a8
    else if s == 4 then 3      // e8
    else if s == 7 then 11     // h8
    else if s == 56 then 13    // a1
    else if s == 60 then 12    // e1
    else if s == 63 then 14    // h1
    else 15
  }

  /** The castling rights after a move: what castle_rights of the source and of the target
      keep of them. */
  function Revoked(castle: bv4, m: Move): bv4 {
    castle & CastlingRights(Source(m)) & CastlingRights(Target(m))
  }

  /** The rights that need a king or rook still on its starting square s. */
  function RightsNeeding(s: int): bv4 {
    if s == 60 then WhiteKingSide | WhiteQueenSide
    else if s == 63 then WhiteKingSide
    else if s == 56 then WhiteQueenSide
    else if s == 4 then BlackKingSide | BlackQueenSide
    else if s == 7 then BlackKingSide
    else if s == 0 then BlackQueenSide
    else 0
  }

  /** The table clears exactly the rights that depend on the piece standing on that square and
      keeps every other right. */
  lemma CastlingRightsClear(s: int)
    ensures CastlingRights(s) == !RightsNeeding(s)
    ensures CastlingRights(s) == 15 <==> s !in {0, 4, 7, 56, 60, 63}
  {
  }

  /** x keeps only rights that y has. */
  predicate Within(x: bv4, y: bv4) { x & y == x }

  /** ANDing castle with a mask never grants a right. */
  lemma AndWithin(c: bv4, a: bv4, b: bv4)
    ensures Within(c & a & b, c)
  {
  }

  // ----- The steps of makeMove -----

  /** pop_bit then set_bit on the moving piece's board. */
  function MovePiece(bbs: seq<Bitboard>, piece: int, source: Square, target: Square): (r: seq<Bitboard>)
    requires |bbs| == 12 && 0 <= piece < 12
    ensures |r| == 12
  {
    bbs[piece := SetBit(PopBit(bbs[piece], source), target)]
  }

  /** The capture loop's search: the first board from i up to hi that holds t, or hi if none does. */
  function FirstHolder(bbs: seq<Bitboard>, i: int, hi: int, t: Square): (r: int)
    requires 0 <= i <= hi <= |bbs|
    ensures i <= r <= hi
    ensures r < hi ==> GetBit(bbs[r], t)
    ensures forall j :: i <= j < r ==> !GetBit(bbs[j], t)
    decreases hi - i
  {
    if i == hi then hi
    else if GetBit(bbs[i], t) then i
    else FirstHolder(bbs, i + 1, hi, t)
  }

  /** The capture step: the first enemy board holding the target loses it; no other board changes. */
  function RemoveCaptured(bbs: seq<Bitboard>, side: int, t: Square): (r: seq<Bitboard>)
    requires |bbs| == 12 && (side == White || side == Black)
    ensures |r| == 12
  {
    var lo := BoardOf(1 - side, Pawn);
    var j := FirstHolder(bbs, lo, lo + 6, t);
    if j < lo + 6 then bbs[j := PopBit(bbs[j], t)] else bbs
  }

  /** The promotion step as the source writes it: the side's pawn board loses the SOURCE square,
      which the move already cleared, and the promoted piece's board gains the target. */
  function PromoteAsWritten(bbs: seq<Bitboard>, side: int, promoted: int, source: Square, target: Square)
    : (r: seq<Bitboard>)
    requires |bbs| == 12 && (side == White || side == Black) && 0 <= promoted < 12
    ensures |r| == 12
  {
    var pawn := BoardOf(side, Pawn);
    var b := bbs[pawn := PopBit(bbs[pawn], source)];
    b[promoted := SetBit(b[promoted], target)]
  }

  /** The promotion step as intended: the pawn that has just arrived on the target is removed and
      the promoted piece put there. */
  function Promote(bbs: seq<Bitboard>, side: int, promoted: int, target: Square): (r: seq<Bitboard>)
    requires |bbs| == 12 && (side == White || side == Black) && 0 <= promoted < 12
    ensures |r| == 12
  {
    var pawn := BoardOf(side, Pawn);
    var b := bbs[pawn := PopBit(bbs[pawn], target)];
    b[promoted := SetBit(b[promoted], target)]
  }

  /** The square of the pawn taken en passant (or passed by a double push): behind the target. */
  function Behind(side: int, target: int): int {
    if side == White then target + 8 else target - 8
  }

  /** The en-passant step: the enemy pawn behind the target goes, and the mover is set on the
      target (again). */
  function EnPassantCapture(bbs: seq<Bitboard>, side: int, piece: int, target: int): (r: seq<Bitboard>)
    requires |bbs| == 12 && (side == White || side == Black) && 0 <= piece < 12
    requires 0 <= target < 64 && 0 <= Behind(side, target) < 64
    ensures |r| == 12
  {
    var enemyPawn := BoardOf(1 - side, Pawn);
    var b := bbs[enemyPawn := PopBit(bbs[enemyPawn], SquareOf(Behind(side, target)))];
    b[piece := SetBit(b[piece], SquareOf(target))]
  }

  /** The castling step: the rook jumps over the king (g1: h1 to f1, c1: a1 to d1, g8: h8 to f8,
      c8: a8 to d8); on any other target nothing moves. */
  function CastleRook(bbs: seq<Bitboard>, target: int): (r: seq<Bitboard>)
    requires |bbs| == 12
    ensures |r| == 12
  {
    var white, black := BoardOf(White, Rook), BoardOf(Black, Rook);
    if target == 62 then bbs[white := SetBit(PopBit(bbs[white], 63), 61)]
    else if target == 58 then bbs[white := SetBit(PopBit(bbs[white], 56), 59)]
    else if target == 6 then bbs[black := SetBit(PopBit(bbs[black], 7), 5)]
    else if target == 2 then bbs[black := SetBit(PopBit(bbs[black], 0), 3)]
    else bbs
  }

  /** The OR of a run of boards, accumulated from the first upwards as the occupancy loops do. */
  function OrAll(bbs: seq<Bitboard>): Bitboard
    decreases |bbs|
  {
    if bbs == [] then 0 else Or(OrAll(bbs[..|bbs| - 1]), bbs[|bbs| - 1])
  }

  /** The OR of boards lo..hi-1. */
  function OrRange(bbs: seq<Bitboard>, lo: int, hi: int): Bitboard
    requires 0 <= lo <= hi <= |bbs|
  {
    OrAll(bbs[lo..hi])
  }

  /** One more board ORed in. */
  lemma OrRangeNext(bbs: seq<Bitboard>, lo: int, hi: int)
    requires 0 <= lo <= hi < |bbs|
    ensures OrRange(bbs, lo, hi + 1) == Or(OrRange(bbs, lo, hi), bbs[hi])
  {
    var run := bbs[lo..hi + 1];
    assert run[..|run| - 1] == bbs[lo..hi];
    assert run[|run| - 1] == bbs[hi];
  }

  /** One pass of an occupancy loop: the side's accumulator (from lo) and both's (from 0) each
      take in the next board. */
  lemma OrStep(bbs: seq<Bitboard>, lo: int, piece: int, own: Bitboard, both: Bitboard)
    requires 0 <= lo <= piece < |bbs| && own == OrRange(bbs, lo, piece) && both == OrRange(bbs, 0, piece)
    ensures Or(own, bbs[piece]) == OrRange(bbs, lo, piece + 1)
    ensures Or(both, bbs[piece]) == OrRange(bbs, 0, piece + 1)
  {
    OrRangeNext(bbs, lo, piece);
    OrRangeNext(bbs, 0, piece);
  }

  /** The reset occupancies: white's six boards, black's six, and all twelve. */
  function Occupancies(bbs: seq<Bitboard>): (occ: seq<Bitboard>)
    requires |bbs| == 12
    ensures |occ| == 3
  {
    [OrRange(bbs, 0, 6), OrRange(bbs, 6, 12), OrRange(bbs, 0, 12)]
  }

  /** The en-passant square after the move: behind the target after a double push, else none. */
  function EnPassantAfter(side: int, m: Move): int {
    if IsDoublePush(m) then Behind(side, Target(m)) else NoSquare
  }

  /** What the program can apply without undefined behaviour: a piece and a promoted piece that
      index a board, and for an en-passant capture or double push, a square behind the target. */
  predicate Playable(p: Position, m: Move) {
    Piece(m) < 12 && Promoted(m) < 12 &&
    (IsEnPassant(m) || IsDoublePush(m) ==> 0 <= Behind(p.side, Target(m)) < 64)
  }

  /** The piece boards after each step of makeMove; `fixed` chooses the intended promotion step
      over the one written in the source. */
  function Placed(p: Position, m: Move, fixed: bool): (r: seq<Bitboard>)
    requires Valid(p) && Playable(p, m)
    ensures |r| == 12
  {
    var s, t := SquareOf(Source(m)), SquareOf(Target(m));
    var moved := MovePiece(p.bitboards, Piece(m), s, t);
    var captured := if IsCapture(m) then RemoveCaptured(moved, p.side, t) else moved;
    var promoted :=
      if Promoted(m) == 0 then captured
      else if fixed then Promote(captured, p.side, Promoted(m), t)
      else PromoteAsWritten(captured, p.side, Promoted(m), s, t);
    var passed := if IsEnPassant(m) then EnPassantCapture(promoted, p.side, Piece(m), Target(m)) else promoted;
    if IsCastling(m) then CastleRook(passed, Target(m)) else passed
  }

  /** makeMove's update of the globals, before the legality test. */
  function ApplyWith(p: Position, m: Move, fixed: bool): (r: Position)
    requires Valid(p) && Playable(p, m)
    ensures Valid(r)
  {
    var bbs := Placed(p, m, fixed);
    Position(bbs, Occupancies(bbs), 1 - p.side, EnPassantAfter(p.side, m),
             Revoked(p.castle, m))
  }

  /** The update the model uses: with the intended promotion step. */
  function Apply(p: Position, m: Move): (r: Position)
    requires Valid(p) && Playable(p, m)
    ensures Valid(r) && r.side == 1 - p.side
  {
    ApplyWith(p, m, true)
  }

  /** The update exactly as written, promotion step included. */
  function ApplyAsWritten(p: Position, m: Move): (r: Position)
    requires Valid(p) && Playable(p, m)
    ensures Valid(r)
  {
    ApplyWith(p, m, false)
  }

  /** A position built field by field as makeMove builds it is the applied move. */
  lemma ApplyIs(p: Position, m: Move, r: Position)
    requires Valid(p) && Playable(p, m)
    requires r.bitboards == Placed(p, m, true) && r.occupancies == Occupancies(r.bitboards)
    requires r.side == 1 - p.side && r.enpassant == EnPassantAfter(p.side, m)
    requires r.castle == Revoked(p.castle, m)
    ensures r == Apply(p, m)
  {
  }

  // ----- What a move does to the state -----

  /** A bit of the OR of boards lo..hi-1 is set exactly when one of those boards has it. */
  lemma {:induction false} OrRangeSpec(bbs: seq<Bitboard>, lo: int, hi: int, t: Square)
    requires 0 <= lo <= hi <= |bbs|
    ensures GetBit(OrRange(bbs, lo, hi), t) <==> exists i :: lo <= i < hi && GetBit(bbs[i], t)
    decreases hi - lo
  {
    if hi == lo {
      assert bbs[lo..hi] == [];
      EmptyOnly(t);
    } else {
      OrRangeSpec(bbs, lo, hi - 1, t);
      OrRangeNext(bbs, lo, hi - 1);
      OrSpec(OrRange(bbs, lo, hi - 1), bbs[hi - 1], t);
    }
  }

  /** The reset occupancies: white's holds a square exactly when one of the six white boards
      does, black's when one of the six black boards does, and both's when either does. */
  lemma OccupanciesSpec(bbs: seq<Bitboard>, t: Square)
    requires |bbs| == 12
    ensures GetBit(Occupancies(bbs)[White], t) <==> exists i :: 0 <= i < 6 && GetBit(bbs[i], t)
    ensures GetBit(Occupancies(bbs)[Black], t) <==> exists i :: 6 <= i < 12 && GetBit(bbs[i], t)
    ensures GetBit(Occupancies(bbs)[Both], t) <==>
      GetBit(Occupancies(bbs)[White], t) || GetBit(Occupancies(bbs)[Black], t)
  {
    OrRangeSpec(bbs, 0, 6, t);
    OrRangeSpec(bbs, 6, 12, t);
    OrRangeSpec(bbs, 0, 12, t);
  }

  /** The occupancies agree with the piece boards, as they do after every makeMove. */
  ghost predicate Consistent(p: Position)
    requires Valid(p)
  {
    forall t: Square {:trigger GetBit(p.occupancies[Both], t)} ::
      (GetBit(p.occupancies[White], t) <==> exists i :: 0 <= i < 6 && GetBit(p.bitboards[i], t)) &&
      (GetBit(p.occupancies[Black], t) <==> exists i :: 6 <= i < 12 && GetBit(p.bitboards[i], t)) &&
      (GetBit(p.occupancies[Both], t) <==> GetBit(p.occupancies[White], t) || GetBit(p.occupancies[Black], t))
  }

  /** After a move: the other side is to move; the occupancies are the unions of the new boards;
      the en-passant square is the one behind a double push and none otherwise; and castle keeps
      exactly the old rights that neither the source nor the target square revokes, so no right
      is ever regained. */
  lemma ApplySpec(p: Position, m: Move)
    requires Valid(p) && Playable(p, m)
    ensures var r := Apply(p, m);
      r.side == 1 - p.side && Consistent(r) &&
      r.enpassant == (if IsDoublePush(m) then (if p.side == White then Target(m) + 8 else Target(m) - 8) else NoSquare) &&
      r.castle == p.castle & !RightsNeeding(Source(m)) & !RightsNeeding(Target(m)) &&
      Within(r.castle, p.castle)
  {
    var r := Apply(p, m);
    forall t: Square ensures
      (GetBit(r.occupancies[White], t) <==> exists i :: 0 <= i < 6 && GetBit(r.bitboards[i], t)) &&
      (GetBit(r.occupancies[Black], t) <==> exists i :: 6 <= i < 12 && GetBit(r.bitboards[i], t)) &&
      (GetBit(r.occupancies[Both], t) <==> GetBit(r.occupancies[White], t) || GetBit(r.occupancies[Black], t))
    {
      OccupanciesSpec(r.bitboards, t);
    }
    CastlingRightsClear(Source(m));
    CastlingRightsClear(Target(m));
    AndWithin(p.castle, CastlingRights(Source(m)), CastlingRights(Target(m)));
  }

  /** A capture takes exactly one enemy piece off the target: the first enemy board (in piece
      order) that holds it; every other board, the mover's side included, is as before. */
  lemma RemoveCapturedSpec(bbs: seq<Bitboard>, side: int, t: Square, i: int)
    requires |bbs| == 12 && (side == White || side == Black) && 0 <= i < 12
    ensures var r := RemoveCaptured(bbs, side, t); var lo := BoardOf(1 - side, Pawn);
      var first := FirstHolder(bbs, lo, lo + 6, t);
      (i == first && first < lo + 6 ==>
        !GetBit(r[i], t) && forall u: Square :: u != t ==> (GetBit(r[i], u) <==> GetBit(bbs[i], u))) &&
      (i != first || first == lo + 6 ==> r[i] == bbs[i]) &&
      (first == lo + 6 <==> forall j :: lo <= j < lo + 6 ==> !GetBit(bbs[j], t))
  {
    var lo := BoardOf(1 - side, Pawn);
    var first := FirstHolder(bbs, lo, lo + 6, t);
    if i == first && first < lo + 6 {
      PopBitClears(bbs[i], t);
      forall u: Square | u != t ensures GetBit(PopBit(bbs[i], t), u) <==> GetBit(bbs[i], u) {
        PopBitSpec(bbs[i], t, u);
      }
    }
  }

  /** The steps before the promotion step leave the mover's pawn on the target and off the source;
      the capture step touches only enemy boards. */
  lemma PawnArrives(p: Position, m: Move)
    requires Valid(p) && Playable(p, m) && Piece(m) == BoardOf(p.side, Pawn) && Source(m) != Target(m)
    ensures var s, t := SquareOf(Source(m)), SquareOf(Target(m));
      var moved := MovePiece(p.bitboards, Piece(m), s, t);
      var captured := if IsCapture(m) then RemoveCaptured(moved, p.side, t) else moved;
      s != t && GetBit(captured[Piece(m)], t) && !GetBit(captured[Piece(m)], s)
  {
    var s, t := SquareOf(Source(m)), SquareOf(Target(m));
    var pawn := Piece(m);
    var moved := MovePiece(p.bitboards, pawn, s, t);
    assert s != t by { IndexOf(Source(m)); IndexOf(Target(m)); }
    PopBitClears(p.bitboards[pawn], s);
    SetBitSpec(PopBit(p.bitboards[pawn], s), t, s);
    SetBitSets(PopBit(p.bitboards[pawn], s), t);
    if IsCapture(m) {
      RemoveCapturedSpec(moved, p.side, t, pawn);
    }
  }

  /** With the intended step, a promoting pawn leaves no pawn behind: the target holds the
      promoted piece and not the pawn, and the source holds neither. */
  lemma PromotionReplacesPawn(p: Position, m: Move)
    requires Valid(p) && Playable(p, m) && Piece(m) == BoardOf(p.side, Pawn)
    requires Promoted(m) != 0 && Promoted(m) != Piece(m) && Source(m) != Target(m)
    requires !IsEnPassant(m) && !IsCastling(m)
    ensures var r := Apply(p, m).bitboards; var s, t := SquareOf(Source(m)), SquareOf(Target(m));
      !GetBit(r[Piece(m)], t) && !GetBit(r[Piece(m)], s) && GetBit(r[Promoted(m)], t)
  {
    var s, t := SquareOf(Source(m)), SquareOf(Target(m));
    var pawn := Piece(m);
    var moved := MovePiece(p.bitboards, pawn, s, t);
    var captured := if IsCapture(m) then RemoveCaptured(moved, p.side, t) else moved;
    PawnArrives(p, m);
    var b := captured[pawn := PopBit(captured[pawn], t)];
    PopBitClears(captured[pawn], t);
    PopBitSpec(captured[pawn], t, s);
    SetBitSets(b[Promoted(m)], t);
  }

  /** The promotion step as written keeps a pawn that stands on the target. */
  lemma PromoteAsWrittenKeeps(bbs: seq<Bitboard>, side: int, promoted: int, s: Square, t: Square)
    requires |bbs| == 12 && (side == White || side == Black) && 0 <= promoted < 12
    requires promoted != BoardOf(side, Pawn) && s != t && GetBit(bbs[BoardOf(side, Pawn)], t)
    ensures var r := PromoteAsWritten(bbs, side, promoted, s, t);
      GetBit(r[BoardOf(side, Pawn)], t) && GetBit(r[promoted], t)
  {
    var pawn := BoardOf(side, Pawn);
    var b := bbs[pawn := PopBit(bbs[pawn], s)];
    PopBitSpec(bbs[pawn], s, t);
    SetBitSets(b[promoted], t);
  }

  /** As written, the promotion step pops the already empty source square, so the pawn stays on
      the promotion square beside the promoted piece (a7-a8=Q leaves a pawn and a queen on a8). */
  lemma PromotionLeavesPawn(p: Position, m: Move)
    requires Valid(p) && Playable(p, m) && Piece(m) == BoardOf(p.side, Pawn)
    requires Promoted(m) != 0 && Promoted(m) != Piece(m) && Source(m) != Target(m)
    requires !IsEnPassant(m) && !IsCastling(m)
    ensures var r := ApplyAsWritten(p, m).bitboards; var t := SquareOf(Target(m));
      GetBit(r[Piece(m)], t) && GetBit(r[Promoted(m)], t)
  {
    var s, t := SquareOf(Source(m)), SquareOf(Target(m));
    var moved := MovePiece(p.bitboards, Piece(m), s, t);
    var captured := if IsCapture(m) then RemoveCaptured(moved, p.side, t) else moved;
    PawnArrives(p, m);
    PromoteAsWrittenKeeps(captured, p.side, Promoted(m), s, t);
    assert ApplyAsWritten(p, m).bitboards == PromoteAsWritten(captured, p.side, Promoted(m), s, t);
  }

  // ----- isSquareAttacked -----

  /** The squares a bishop, rook or queen on sq attacks over the blockers occ. */
  function SliderRays(kind: int, sq: Square, occ: seq<bool>): (m: seq<bool>)
    requires |occ| == 64
    ensures |m| == 64
  {
    if kind == Bishop then BishopAttacks(sq, occ)
    else if kind == Rook then RookAttacks(sq, occ)
    else Union(BishopAttacks(sq, occ), RookAttacks(sq, occ))
  }

  /** Reference definition: a piece of this kind and side standing on t attacks sq, on a board
      whose occupied squares are occ. Pawns, knights and kings by their moves; bishops, rooks and
      queens when the ray walk from sq, stopping at the first blocker, reaches t. */
  predicate Reaches(kind: int, side: int, t: Square, sq: Square, occ: seq<bool>)
    requires |occ| == 64
  {
    if kind == Pawn then PawnCapture(side, t, sq)
    else if kind == Knight then KnightJump(t, sq)
    else if kind == King then KingStep(t, sq)
    else SliderRays(kind, sq, occ)[Index(t)]
  }

  /** Some piece of this kind and side attacks sq. */
  ghost predicate AttackerOn(p: Position, kind: int, sq: Square, side: int)
    requires Valid(p) && 0 <= kind < 6 && (side == White || side == Black)
  {
    exists t: Square :: GetBit(p.bitboards[BoardOf(side, kind)], t) &&
      Reaches(kind, side, t, sq, Members(p.occupancies[Both]))
  }

  /** Reference definition of isSquareAttacked: some piece of the side attacks the square. */
  ghost predicate Attacked(p: Position, sq: Square, side: int)
    requires Valid(p) && (side == White || side == Black)
  {
    AttackerOn(p, Pawn, sq, side) || AttackerOn(p, Knight, sq, side) || AttackerOn(p, King, sq, side) ||
    AttackerOn(p, Bishop, sq, side) || AttackerOn(p, Rook, sq, side) || AttackerOn(p, Queen, sq, side)
  }

  /** The test `if (a & b)`: the two bitboards share a square. */
  predicate Hits(a: Bitboard, b: Bitboard) { a & b != 0 }

  /** Two bitboards meet exactly when some square is on both. */
  lemma Meets(a: Bitboard, b: Bitboard)
    ensures Hits(a, b) <==> exists t: Square :: GetBit(a, t) && GetBit(b, t)
  {
    if a & b != 0 {
      LsbSet(a & b);
      AndSpec(a, b, Lsb(a & b));
    } else {
      forall t: Square ensures !(GetBit(a, t) && GetBit(b, t)) {
        AndSpec(a, b, t);
        EmptyOnly(t);
      }
    }
  }

  /** pawnAttacks[other side][sq] meets the side's pawns exactly when one of them captures onto sq. */
  lemma PawnAttacker(p: Position, sq: Square, side: int)
    requires Valid(p) && (side == White || side == Black)
    ensures Hits(PawnAttacks(1 - side, sq), p.bitboards[BoardOf(side, Pawn)]) <==> AttackerOn(p, Pawn, sq, side)
  {
    Meets(PawnAttacks(1 - side, sq), p.bitboards[BoardOf(side, Pawn)]);
    forall t: Square ensures GetBit(PawnAttacks(1 - side, sq), t) <==> PawnCapture(side, t, sq) {
      PawnAttacksSpec(1 - side, sq, t);
    }
  }

  /** The knight mask of sq meets the side's knights exactly when one of them jumps onto sq. */
  lemma KnightAttacker(p: Position, sq: Square, side: int)
    requires Valid(p) && (side == White || side == Black)
    ensures Hits(KnightAttacks(sq), p.bitboards[BoardOf(side, Knight)]) <==> AttackerOn(p, Knight, sq, side)
  {
    Meets(KnightAttacks(sq), p.bitboards[BoardOf(side, Knight)]);
    forall t: Square ensures GetBit(KnightAttacks(sq), t) <==> KnightJump(t, sq) {
      KnightAttacksSpec(sq, t);
      KnightJumpBack(sq, t);
    }
  }

  lemma KnightJumpBack(s: Square, t: Square)
    ensures KnightJump(s, t) <==> KnightJump(t, s)
  {
    KnightOffsetBack(Rank(s), File(s), Rank(t), File(t));
  }

  lemma KnightOffsetBack(rs: int, fs: int, rt: int, ft: int)
    ensures KnightOffset(rt - rs, ft - fs) <==> KnightOffset(rs - rt, fs - ft)
  {
  }

  /** The king mask of sq meets the side's king board exactly when its king touches sq. */
  lemma KingAttacker(p: Position, sq: Square, side: int)
    requires Valid(p) && (side == White || side == Black)
    ensures Hits(KingAttacks(sq), p.bitboards[BoardOf(side, King)]) <==> AttackerOn(p, King, sq, side)
  {
    Meets(KingAttacks(sq), p.bitboards[BoardOf(side, King)]);
    forall t: Square ensures GetBit(KingAttacks(sq), t) <==> KingStep(t, sq) {
      KingAttacksSpec(sq, t);
      KingStepBack(sq, t);
    }
  }

  lemma KingStepBack(s: Square, t: Square)
    ensures KingStep(s, t) <==> KingStep(t, s)
  {
    KingOffsetBack(Rank(s), File(s), Rank(t), File(t));
  }

  lemma KingOffsetBack(rs: int, fs: int, rt: int, ft: int)
    ensures KingOffset(rt - rs, ft - fs) <==> KingOffset(rs - rt, fs - ft)
  {
  }

  /** A looked-up bishop, rook or queen mask whose squares are the rays from sq meets the side's
      board of that kind exactly when the rays reach one of its pieces. */
  lemma SliderAttacker(p: Position, kind: int, sq: Square, side: int, attacks: Bitboard)
    requires Valid(p) && (side == White || side == Black) && Bishop <= kind <= Queen
    requires Members(attacks) == SliderRays(kind, sq, Members(p.occupancies[Both]))
    ensures Hits(attacks, p.bitboards[BoardOf(side, kind)]) <==> AttackerOn(p, kind, sq, side)
  {
    Meets(attacks, p.bitboards[BoardOf(side, kind)]);
    forall t: Square ensures GetBit(attacks, t) <==> SliderRays(kind, sq, Members(p.occupancies[Both]))[Index(t)] {
      MembersAt(attacks, t);
    }
  }

  /** The body of isSquareAttacked, given the three slider lookups for the square. */
  predicate AttackTest(p: Position, sq: Square, side: int, bishop: Bitboard, rook: Bitboard, queen: Bitboard)
    requires Valid(p)
  {
    var bbs := p.bitboards;
    (side == White && Hits(PawnAttacks(Black, sq), bbs[BoardOf(White, Pawn)])) ||
    (side == Black && Hits(PawnAttacks(White, sq), bbs[BoardOf(Black, Pawn)])) ||
    Hits(KnightAttacks(sq), if side == White then bbs[BoardOf(White, Knight)] else bbs[BoardOf(Black, Knight)]) ||
    Hits(KingAttacks(sq), if side == White then bbs[BoardOf(White, King)] else bbs[BoardOf(Black, King)]) ||
    Hits(bishop, if side == White then bbs[BoardOf(White, Bishop)] else bbs[BoardOf(Black, Bishop)]) ||
    Hits(rook, if side == White then bbs[BoardOf(White, Rook)] else bbs[BoardOf(Black, Rook)]) ||
    Hits(queen, if side == White then bbs[BoardOf(White, Queen)] else bbs[BoardOf(Black, Queen)])
  }

  /** With lookups that hold the ray walks, isSquareAttacked's tests decide exactly whether some
      piece of the side attacks the square. */
  lemma AttackTestSpec(p: Position, sq: Square, side: int, bishop: Bitboard, rook: Bitboard, queen: Bitboard)
    requires Valid(p) && (side == White || side == Black)
    requires Members(bishop) == SliderRays(Bishop, sq, Members(p.occupancies[Both]))
    requires Members(rook) == SliderRays(Rook, sq, Members(p.occupancies[Both]))
    requires Members(queen) == SliderRays(Queen, sq, Members(p.occupancies[Both]))
    ensures AttackTest(p, sq, side, bishop, rook, queen) <==> Attacked(p, sq, side)
  {
    PawnAttacker(p, sq, side);
    KnightAttacker(p, sq, side);
    KingAttacker(p, sq, side);
    SliderAttacker(p, Bishop, sq, side, bishop);
    SliderAttacker(p, Rook, sq, side, rook);
    SliderAttacker(p, Queen, sq, side, queen);
  }

  // ----- The legality test of makeMove -----

  /** After the move, the mover's king is attacked by the side now to move. A board without the
      mover's king has no square to test and counts as not in check. */
  ghost predicate LeavesKingAttacked(p: Position, m: Move)
    requires Valid(p) && Playable(p, m)
  {
    var r := Apply(p, m);
    var king := r.bitboards[BoardOf(p.side, King)];
    king != 0 && Attacked(r, Lsb(king), r.side)
  }

  /** makeMove keeps a move exactly when it does not leave the mover's king attacked. */
  ghost predicate Legal(p: Position, m: Move)
    requires Valid(p) && Playable(p, m)
  {
    !LeavesKingAttacked(p, m)
  }
}
