// What generateMoves of engine/main.c puts in the move list, as a function of the board. Every
// loop of the engine walks a bitboard from its lowest square up (getLSBIndex, then pop_bit), so
// each list below is built by the same walk: the moves of the lowest square, then those of Rest.
module Generate {
  import opened Bits
  import opened Leapers
  import opened Moves
  import opened State

  // ----- Squares the generator names -----

  /** The king's square before castling (e1 for white, e8 for black); the castling squares lie
      at the same offsets from it on both sides. */
  function KingHome(side: int): int { if side == White then 60 else 4 }

  /** The rank a pawn of this side promotes from (a7-h7 for white, a2-h2 for black) and the rank
      it may push two squares from (a2-h2 for white, a7-h7 for black); square numbers fall
      towards rank 8. */
  function LastRank(side: int): int { if side == White then 1 else 6 }
  function HomeRank(side: int): int { if side == White then 6 else 1 }

  predicate OnRank(s: int, rank: int) { 8 * rank <= s <= 8 * rank + 7 }

  /** No piece of either side stands on square s. */
  predicate Empty(p: Position, s: int)
    requires Valid(p) && 0 <= s < 64
  {
    !GetBit(p.occupancies[Both], SquareOf(s))
  }

  /** `castle & right`: the right is still held. */
  predicate Holds(castle: bv4, right: bv4) { castle & right != 0 }

  /** The pieces a pawn of this side promotes to, in the order the pushes list them (queen, rook,
      knight, bishop) and in the order the captures list them (queen, rook, bishop, knight). */
  function PushPromotions(side: int): seq<int> {
    [BoardOf(side, Queen), BoardOf(side, Rook), BoardOf(side, Knight), BoardOf(side, Bishop)]
  }
  function CapturePromotions(side: int): seq<int> {
    [BoardOf(side, Queen), BoardOf(side, Rook), BoardOf(side, Bishop), BoardOf(side, Knight)]
  }

  /** One move per promotion piece, in the given order. */
  function Promotions(s: int, t: int, piece: int, pieces: seq<int>, capture: int): (ms: seq<Move>)
    requires 0 <= s < 64 && 0 <= t < 64 && 0 <= piece < 12 && IsFlag(capture)
    requires forall i :: 0 <= i < |pieces| ==> 0 <= pieces[i] < 12
    ensures |ms| == |pieces|
    decreases |pieces|
  {
    if pieces == [] then []
    else [Encode(s, t, piece, pieces[0], capture, 0, 0, 0)] + Promotions(s, t, piece, pieces[1..], capture)
  }

  // ----- Pawns -----

  /** The pushes of a pawn on s: nothing when the square in front is off the board or taken; four
      promotions from the last rank; otherwise the double push (from the home rank, when the
      square beyond is free too) before the single push. */
  function Pushes(p: Position, piece: int, s: int): seq<Move>
    requires Valid(p) && 0 <= piece < 12 && 0 <= s < 64
  {
    var t := if p.side == White then s - 8 else s + 8;
    if !(0 <= t < 64) || !Empty(p, t) then []
    else if OnRank(s, LastRank(p.side)) then Promotions(s, t, piece, PushPromotions(p.side), 0)
    else
      var u := if p.side == White then t - 8 else t + 8;
      (if OnRank(s, HomeRank(p.side)) && Empty(p, u) then [Encode(s, u, piece, 0, 0, 1, 0, 0)] else []) +
      [Encode(s, t, piece, 0, 0, 0, 0, 0)]
  }

  /** The captures of a pawn on s onto t: four promotions from the last rank, one capture
      otherwise. */
  function PawnTakes(p: Position, piece: int, s: int, t: int): seq<Move>
    requires Valid(p) && 0 <= piece < 12 && 0 <= s < 64 && 0 <= t < 64
  {
    if OnRank(s, LastRank(p.side)) then Promotions(s, t, piece, CapturePromotions(p.side), 1)
    else [Encode(s, t, piece, 0, 1, 0, 0, 0)]
  }

  /** The captures of a pawn on s onto the squares of `targets` (its attack mask on the enemy
      pieces), lowest square first. */
  function PawnCaptures(p: Position, piece: int, s: int, targets: Bitboard): seq<Move>
    requires Valid(p) && 0 <= piece < 12 && 0 <= s < 64
    decreases PopCount(targets)
  {
    if targets == 0 then []
    else PawnTakes(p, piece, s, Index(Lsb(targets))) + PawnCaptures(p, piece, s, Rest(targets))
  }

  /** The pawn's attack mask on the en-passant square, `pawnAttacks[side][s] & (1ULL << enpassant)`. */
  function EnPassantMask(p: Position, s: Square): Bitboard
    requires Valid(p) && p.enpassant != NoSquare
  {
    And(PawnAttacks(p.side, s), Bit(SquareOf(p.enpassant)))
  }

  /** The en-passant capture of a pawn on s, when there is an en-passant square it attacks. */
  function EnPassant(p: Position, piece: int, s: Square): seq<Move>
    requires Valid(p) && 0 <= piece < 12
  {
    if p.enpassant == NoSquare then []
    else
      var mask := EnPassantMask(p, s);
      if mask == 0 then [] else [Encode(Index(s), Index(Lsb(mask)), piece, 0, 1, 0, 1, 0)]
  }

  /** Everything the pawn block generates for the pawn on s. */
  function PawnMoves(p: Position, piece: int, s: Square): seq<Move>
    requires Valid(p) && 0 <= piece < 12
  {
    Pushes(p, piece, Index(s)) +
    PawnCaptures(p, piece, Index(s), And(PawnAttacks(p.side, s), p.occupancies[1 - p.side])) +
    EnPassant(p, piece, s)
  }

  // ----- Castling -----

  /** The castling moves of the side's king: king side, then queen side. */
  ghost function Castles(p: Position, piece: int): seq<Move>
    requires Valid(p) && 0 <= piece < 12
  {
    KingSideCastle(p, piece) + QueenSideCastle(p, piece)
  }

  /** The castling move of the side's king towards the king side (two files right) or the
      queen side (two files left). */
  function CastleMove(side: int, piece: int, kingSide: bool): (m: Move)
    requires (side == White || side == Black) && 0 <= piece < 12
    ensures Source(m) == KingHome(side) && Piece(m) == piece && Promoted(m) == 0
    ensures Target(m) == if kingSide then KingHome(side) + 2 else KingHome(side) - 2
    ensures IsCastling(m) && !IsCapture(m) && !IsDoublePush(m) && !IsEnPassant(m)
  {
    var e := KingHome(side);
    EncodeDecode(e, if kingSide then e + 2 else e - 2, piece, 0, 0, 0, 0, 1);
    Encode(e, if kingSide then e + 2 else e - 2, piece, 0, 0, 0, 0, 1)
  }

  /** King side: the right is held, f and g are empty, and neither e nor f is attacked. */
  ghost predicate KingSideAllowed(p: Position)
    requires Valid(p)
  {
    var e := KingHome(p.side);
    Holds(p.castle, if p.side == White then WhiteKingSide else BlackKingSide) &&
    Empty(p, e + 2) && Empty(p, e + 1) &&
    !Attacked(p, SquareOf(e), 1 - p.side) && !Attacked(p, SquareOf(e + 1), 1 - p.side)
  }

  /** Queen side: the right is held, b, c and d are empty, and neither e nor d is attacked. */
  ghost predicate QueenSideAllowed(p: Position)
    requires Valid(p)
  {
    var e := KingHome(p.side);
    Holds(p.castle, if p.side == White then WhiteQueenSide else BlackQueenSide) &&
    Empty(p, e - 1) && Empty(p, e - 2) && Empty(p, e - 3) &&
    !Attacked(p, SquareOf(e), 1 - p.side) && !Attacked(p, SquareOf(e - 1), 1 - p.side)
  }

  ghost function KingSideCastle(p: Position, piece: int): seq<Move>
    requires Valid(p) && 0 <= piece < 12
  {
    if KingSideAllowed(p) then [CastleMove(p.side, piece, true)] else []
  }

  ghost function QueenSideCastle(p: Position, piece: int): seq<Move>
    requires Valid(p) && 0 <= piece < 12
  {
    if QueenSideAllowed(p) then [CastleMove(p.side, piece, false)] else []
  }

  // ----- Knights, bishops, rooks, queens, kings -----

  /** The squares a piece of this kind on s attacks: the leaper tables for knights and kings, the
      ray walks over both sides' pieces for bishops, rooks and queens. */
  ghost function PieceAttacks(p: Position, kind: int, s: Square): Bitboard
    requires Valid(p) && Knight <= kind <= King
  {
    if kind == Knight then KnightAttacks(s)
    else if kind == King then KingAttacks(s)
    else FromMembers(SliderRays(kind, s, Members(p.occupancies[Both])))
  }

  /** The move of the piece on s to t, flagged as a capture when an enemy piece stands there. */
  function TargetMove(p: Position, piece: int, s: int, t: Square): Move
    requires Valid(p) && 0 <= piece < 12 && 0 <= s < 64
  {
    Encode(s, Index(t), piece, 0, FlagOf(GetBit(p.occupancies[1 - p.side], t)), 0, 0, 0)
  }

  /** One move of the piece on s to each square of `targets`, lowest first. */
  function TargetMoves(p: Position, piece: int, s: int, targets: Bitboard): seq<Move>
    requires Valid(p) && 0 <= piece < 12 && 0 <= s < 64
    decreases PopCount(targets)
  {
    if targets == 0 then []
    else [TargetMove(p, piece, s, Lsb(targets))] + TargetMoves(p, piece, s, Rest(targets))
  }

  // ----- The whole list -----

  /** The moves generated for the piece of board `piece` standing on s. */
  ghost function SourceMoves(p: Position, piece: int, s: Square): seq<Move>
    requires Valid(p) && BoardOf(p.side, Pawn) <= piece <= BoardOf(p.side, King)
  {
    var kind := piece - BoardOf(p.side, Pawn);
    if kind == Pawn then PawnMoves(p, piece, s)
    else TargetMoves(p, piece, Index(s), Minus(PieceAttacks(p, kind, s), p.occupancies[p.side]))
  }

  /** The moves of the pieces of board `piece` standing on the squares of `sources`, lowest first. */
  ghost function SourcesMoves(p: Position, piece: int, sources: Bitboard): seq<Move>
    requires Valid(p) && BoardOf(p.side, Pawn) <= piece <= BoardOf(p.side, King)
    decreases PopCount(sources)
  {
    if sources == 0 then []
    else SourceMoves(p, piece, Lsb(sources)) + SourcesMoves(p, piece, Rest(sources))
  }

  /** One turn of the piece loop: the castling moves for the king, then the moves of every piece
      on the board. */
  ghost function PieceMoves(p: Position, piece: int): seq<Move>
    requires Valid(p) && BoardOf(p.side, Pawn) <= piece <= BoardOf(p.side, King)
  {
    (if piece == BoardOf(p.side, King) then Castles(p, piece) else []) +
    SourcesMoves(p, piece, p.bitboards[piece])
  }

  /** The moves of the side's boards below `hi`, in board order. */
  ghost function MovesBelow(p: Position, hi: int): seq<Move>
    requires Valid(p) && BoardOf(p.side, Pawn) <= hi <= BoardOf(p.side, King) + 1
    decreases hi
  {
    if hi == BoardOf(p.side, Pawn) then []
    else MovesBelow(p, hi - 1) + PieceMoves(p, hi - 1)
  }

  /** generateMoves: the list the engine fills for the side to move. */
  ghost function GenMoves(p: Position): seq<Move>
    requires Valid(p)
  {
    MovesBelow(p, BoardOf(p.side, King) + 1)
  }

  // ----- Facts the generator's loops use -----

  /** Four promotion pieces give the four moves written out. */
  lemma PromotionsFour(s: int, t: int, piece: int, pieces: seq<int>, capture: int)
    requires 0 <= s < 64 && 0 <= t < 64 && 0 <= piece < 12 && IsFlag(capture)
    requires |pieces| == 4 && forall i :: 0 <= i < 4 ==> 0 <= pieces[i] < 12
    ensures Promotions(s, t, piece, pieces, capture) ==
      [Encode(s, t, piece, pieces[0], capture, 0, 0, 0), Encode(s, t, piece, pieces[1], capture, 0, 0, 0),
       Encode(s, t, piece, pieces[2], capture, 0, 0, 0), Encode(s, t, piece, pieces[3], capture, 0, 0, 0)]
  {
    var e := i requires 0 <= i < 4 => Encode(s, t, piece, pieces[i], capture, 0, 0, 0);
    assert pieces[1..][1..][1..][1..] == [];
    assert Promotions(s, t, piece, pieces[1..][1..][1..], capture) == [e(3)];
    assert Promotions(s, t, piece, pieces[1..][1..], capture) == [e(2), e(3)];
    assert Promotions(s, t, piece, pieces[1..], capture) == [e(1), e(2), e(3)];
  }

  /** The moves of the boards below lo are a prefix of those below hi. */
  lemma {:induction false} MovesBelowGrows(p: Position, lo: int, hi: int)
    requires Valid(p) && BoardOf(p.side, Pawn) <= lo <= hi <= BoardOf(p.side, King) + 1
    ensures |MovesBelow(p, lo)| <= |MovesBelow(p, hi)|
    decreases hi
  {
    if lo < hi {
      MovesBelowGrows(p, lo, hi - 1);
    }
  }

  /** The moves from a square of a pawn board are the pawn's moves. */
  lemma PawnSourceMoves(p: Position, piece: int, s: Square)
    requires Valid(p) && piece == BoardOf(p.side, Pawn)
    ensures SourceMoves(p, piece, s) == PawnMoves(p, piece, s)
  {}

  /** The moves from a square of another board go to the squares the piece attacks that no piece
      of its own side stands on. */
  lemma PieceSourceMoves(p: Position, piece: int, s: Square)
    requires Valid(p) && BoardOf(p.side, Knight) <= piece <= BoardOf(p.side, King)
    ensures SourceMoves(p, piece, s) ==
      TargetMoves(p, piece, Index(s), Minus(PieceAttacks(p, piece - BoardOf(p.side, Pawn), s), p.occupancies[p.side]))
  {}

  /** The moves of one more board follow those below it, and all of them fit in the whole list. */
  lemma PieceFits(p: Position, piece: int)
    requires Valid(p) && BoardOf(p.side, Pawn) <= piece <= BoardOf(p.side, King)
    ensures MovesBelow(p, piece + 1) == MovesBelow(p, piece) + PieceMoves(p, piece)
    ensures |MovesBelow(p, piece)| + |PieceMoves(p, piece)| <= |GenMoves(p)|
  {
    MovesBelowGrows(p, piece + 1, BoardOf(p.side, King) + 1);
  }

  /** A board other than the king's has no castling moves: its moves are those of its squares. */
  lemma OtherPieceMoves(p: Position, piece: int)
    requires Valid(p) && BoardOf(p.side, Pawn) <= piece < BoardOf(p.side, King)
    ensures PieceMoves(p, piece) == SourcesMoves(p, piece, p.bitboards[piece])
  {
    assert PieceMoves(p, piece) == [] + SourcesMoves(p, piece, p.bitboards[piece]);
  }

  /** A slider lookup that holds the ray walk is the attack set of the model. */
  lemma SliderAttacksAre(p: Position, kind: int, s: Square, attacks: Bitboard)
    requires Valid(p) && Bishop <= kind <= Queen
    requires Members(attacks) == SliderRays(kind, s, Members(p.occupancies[Both]))
    ensures attacks == PieceAttacks(p, kind, s)
  {
    MembersInjective(attacks, PieceAttacks(p, kind, s));
  }
}
