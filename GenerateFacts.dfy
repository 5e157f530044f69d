// What every move generateMoves lists satisfies, and how each part of the list is made: the
// properties the search and perft rely on when they play the moves of the list.
module GenerateFacts {
  import opened Bits
  import opened Leapers
  import opened Moves
  import opened State
  import opened Generate

  /** A move of the list: the piece belongs to the side to move, makeMove can play it, the piece
      stands on the source (castling aside: the program checks the rights, not the king), a
      capture flag marks an enemy piece on the target (en passant aside: the victim stands
      behind), a move without it goes to a square that the enemy occupancy or the occupancy of
      both sides leaves clear (QuietTarget), and a double push is a pawn's two steps from its
      home rank over two empty squares. */
  ghost predicate Sound(p: Position, m: Move)
    requires Valid(p)
  {
    BoardOf(p.side, Pawn) <= Piece(m) <= BoardOf(p.side, King) && Playable(p, m) &&
    (!IsCastling(m) ==> GetBit(p.bitboards[Piece(m)], SquareOf(Source(m)))) &&
    (IsCapture(m) && !IsEnPassant(m) ==> GetBit(p.occupancies[1 - p.side], SquareOf(Target(m)))) &&
    (!IsCapture(m) ==> QuietTarget(p, Target(m))) &&
    (IsDoublePush(m) ==> DoublePushFrom(p, Piece(m), Source(m), Target(m)))
  }

  /** A double push from s to t: the side's pawn, standing on its home rank, two squares forward,
      with the square it passes and the square it lands on both empty. */
  ghost predicate DoublePushFrom(p: Position, piece: int, s: int, t: int)
    requires Valid(p) && 0 <= t < 64
  {
    piece == BoardOf(p.side, Pawn) && OnRank(s, HomeRank(p.side)) && GetBit(p.bitboards[piece], SquareOf(s)) &&
    0 <= Behind(p.side, t) < 64 && s == Behind(p.side, Behind(p.side, t)) &&
    Empty(p, Behind(p.side, t)) && Empty(p, t)
  }

  /** The target of a move without the capture flag: the piece loops test it against the enemy
      occupancy, the pawn pushes and the castles against the occupancy of both sides. */
  predicate QuietTarget(p: Position, t: int)
    requires Valid(p) && 0 <= t < 64
  {
    !GetBit(p.occupancies[1 - p.side], SquareOf(t)) || Empty(p, t)
  }

  /** Either test leaves no enemy piece on the square when the occupancies agree with the boards. */
  lemma QuietTargetFree(p: Position, t: int)
    requires Valid(p) && 0 <= t < 64 && QuietTarget(p, t) && Consistent(p)
    ensures !GetBit(p.occupancies[1 - p.side], SquareOf(t))
  {}

  ghost predicate AllSound(p: Position, ms: seq<Move>)
    requires Valid(p)
  {
    forall i :: 0 <= i < |ms| ==> Sound(p, ms[i])
  }

  // The lemmas below keep each step small: the facts about one encoded move are proved once
  // (EncodedSound), and lists are assembled from their parts (Single, Joined).

  lemma Joined(p: Position, a: seq<Move>, b: seq<Move>)
    requires Valid(p) && AllSound(p, a) && AllSound(p, b)
    ensures AllSound(p, a + b)
  {
    forall i | 0 <= i < |a + b| ensures Sound(p, (a + b)[i]) {
      if i >= |a| { assert (a + b)[i] == b[i - |a|]; }
    }
  }

  lemma Single(p: Position, m: Move)
    requires Valid(p) && Sound(p, m)
    ensures AllSound(p, [m])
  {}

  /** The piece of board `piece` stands on s. */
  ghost predicate Stands(p: Position, piece: int, s: int)
    requires Valid(p) && BoardOf(p.side, Pawn) <= piece <= BoardOf(p.side, King) && 0 <= s < 64
  {
    GetBit(p.bitboards[piece], SquareOf(s))
  }

  /** Sound, read off the fields move_encode is given. */
  lemma EncodedSound(p: Position, source: int, target: int, piece: int, promoted: int,
                     capture: int, doublePush: int, enpassant: int, castling: int)
    requires Valid(p) && 0 <= source < 64 && 0 <= target < 64 && 0 <= promoted < 12
    requires BoardOf(p.side, Pawn) <= piece <= BoardOf(p.side, King)
    requires IsFlag(capture) && IsFlag(doublePush) && IsFlag(enpassant) && IsFlag(castling)
    requires enpassant == 1 || doublePush == 1 ==> 0 <= Behind(p.side, target) < 64
    requires castling == 0 ==> Stands(p, piece, source)
    requires capture == 1 && enpassant == 0 ==> GetBit(p.occupancies[1 - p.side], SquareOf(target))
    requires capture == 0 ==> QuietTarget(p, target)
    requires doublePush == 1 ==> DoublePushFrom(p, piece, source, target)
    ensures Sound(p, Encode(source, target, piece, promoted, capture, doublePush, enpassant, castling))
  {
    EncodeDecode(source, target, piece, promoted, capture, doublePush, enpassant, castling);
  }

  // ----- Pawns -----

  lemma {:induction false} PromotionsSound(p: Position, piece: int, s: int, t: int, pieces: seq<int>, capture: int)
    requires Valid(p) && BoardOf(p.side, Pawn) <= piece <= BoardOf(p.side, King) && 0 <= s < 64 && 0 <= t < 64
    requires Stands(p, piece, s) && IsFlag(capture)
    requires capture == 1 ==> GetBit(p.occupancies[1 - p.side], SquareOf(t))
    requires capture == 0 ==> QuietTarget(p, t)
    requires forall i :: 0 <= i < |pieces| ==> 0 <= pieces[i] < 12
    ensures AllSound(p, Promotions(s, t, piece, pieces, capture))
    decreases |pieces|
  {
    if pieces != [] {
      var first := Encode(s, t, piece, pieces[0], capture, 0, 0, 0);
      EncodedSound(p, s, t, piece, pieces[0], capture, 0, 0, 0);
      Single(p, first);
      PromotionsSound(p, piece, s, t, pieces[1..], capture);
      Joined(p, [first], Promotions(s, t, piece, pieces[1..], capture));
    }
  }

  lemma PushesSound(p: Position, piece: int, s: int)
    requires Valid(p) && piece == BoardOf(p.side, Pawn) && 0 <= s < 64 && Stands(p, piece, s)
    ensures AllSound(p, Pushes(p, piece, s))
  {
    var t := if p.side == White then s - 8 else s + 8;
    if 0 <= t < 64 && Empty(p, t) {
      if OnRank(s, LastRank(p.side)) {
        PromotionsSound(p, piece, s, t, PushPromotions(p.side), 0);
      } else {
        var u := if p.side == White then t - 8 else t + 8;
        var single := Encode(s, t, piece, 0, 0, 0, 0, 0);
        EncodedSound(p, s, t, piece, 0, 0, 0, 0, 0);
        Single(p, single);
        var double := if OnRank(s, HomeRank(p.side)) && Empty(p, u) then [Encode(s, u, piece, 0, 0, 1, 0, 0)] else [];
        if OnRank(s, HomeRank(p.side)) && Empty(p, u) {
          EncodedSound(p, s, u, piece, 0, 0, 1, 0, 0);
          Single(p, Encode(s, u, piece, 0, 0, 1, 0, 0));
        }
        Joined(p, double, [single]);
      }
    }
  }

  lemma PawnTakesSound(p: Position, piece: int, s: int, t: Square)
    requires Valid(p) && piece == BoardOf(p.side, Pawn) && 0 <= s < 64 && Stands(p, piece, s)
    requires GetBit(p.occupancies[1 - p.side], t)
    ensures AllSound(p, PawnTakes(p, piece, s, Index(t)))
  {
    if OnRank(s, LastRank(p.side)) {
      PromotionsSound(p, piece, s, Index(t), CapturePromotions(p.side), 1);
    } else {
      EncodedSound(p, s, Index(t), piece, 0, 1, 0, 0, 0);
      Single(p, Encode(s, Index(t), piece, 0, 1, 0, 0, 0));
    }
  }

  lemma {:induction false} PawnCapturesSound(p: Position, piece: int, s: int, targets: Bitboard)
    requires Valid(p) && piece == BoardOf(p.side, Pawn) && 0 <= s < 64 && Stands(p, piece, s)
    requires forall t :: GetBit(targets, t) ==> GetBit(p.occupancies[1 - p.side], t)
    ensures AllSound(p, PawnCaptures(p, piece, s, targets))
    decreases PopCount(targets)
  {
    if targets != 0 {
      LsbSet(targets);
      forall u | GetBit(Rest(targets), u) ensures GetBit(targets, u) {
        RestSpec(targets, u);
      }
      PawnTakesSound(p, piece, s, Lsb(targets));
      PawnCapturesSound(p, piece, s, Rest(targets));
      Joined(p, PawnTakes(p, piece, s, Index(Lsb(targets))), PawnCaptures(p, piece, s, Rest(targets)));
    }
  }

  /** The square behind an en-passant target the pawn attacks is beside the pawn, on the board. */
  lemma BehindAttacked(side: int, s: Square, t: Square)
    requires (side == White || side == Black) && GetBit(PawnAttacks(side, s), t)
    ensures 0 <= Behind(side, Index(t)) < 64
  {
    PawnOffsets(side, s, t);
    Decompose(s);
    Decompose(t);
  }

  lemma EnPassantShape(p: Position, piece: int, s: Square)
    requires Valid(p) && 0 <= piece < 12
    ensures EnPassant(p, piece, s) ==
      if p.enpassant == NoSquare || EnPassantMask(p, s) == 0 then []
      else [Encode(Index(s), Index(Lsb(EnPassantMask(p, s))), piece, 0, 1, 0, 1, 0)]
  {}

  /** The en-passant target a pawn attacks has the captured pawn's square behind it on the board. */
  lemma EnPassantTarget(p: Position, s: Square)
    requires Valid(p) && p.enpassant != NoSquare && EnPassantMask(p, s) != 0
    ensures 0 <= Behind(p.side, Index(Lsb(EnPassantMask(p, s)))) < 64
  {
    var mask := EnPassantMask(p, s);
    var t := Lsb(mask);
    LsbSet(mask);
    AndSpec(PawnAttacks(p.side, s), Bit(SquareOf(p.enpassant)), t);
    BehindAttacked(p.side, s, t);
  }

  lemma EnPassantMoveSound(p: Position, piece: int, s: Square)
    requires Valid(p) && piece == BoardOf(p.side, Pawn) && Stands(p, piece, Index(s))
    requires p.enpassant != NoSquare && EnPassantMask(p, s) != 0
    ensures Sound(p, Encode(Index(s), Index(Lsb(EnPassantMask(p, s))), piece, 0, 1, 0, 1, 0))
  {
    EnPassantTarget(p, s);
    EncodedSound(p, Index(s), Index(Lsb(EnPassantMask(p, s))), piece, 0, 1, 0, 1, 0);
  }

  lemma EnPassantSound(p: Position, piece: int, s: Square)
    requires Valid(p) && piece == BoardOf(p.side, Pawn) && Stands(p, piece, Index(s))
    ensures AllSound(p, EnPassant(p, piece, s))
  {
    EnPassantShape(p, piece, s);
    if p.enpassant != NoSquare && EnPassantMask(p, s) != 0 {
      EnPassantMoveSound(p, piece, s);
      Single(p, Encode(Index(s), Index(Lsb(EnPassantMask(p, s))), piece, 0, 1, 0, 1, 0));
    }
  }

  lemma PawnMovesSound(p: Position, piece: int, s: Square)
    requires Valid(p) && piece == BoardOf(p.side, Pawn) && Stands(p, piece, Index(s))
    ensures AllSound(p, PawnMoves(p, piece, s))
  {
    var targets := And(PawnAttacks(p.side, s), p.occupancies[1 - p.side]);
    forall t | GetBit(targets, t) ensures GetBit(p.occupancies[1 - p.side], t) {
      AndSpec(PawnAttacks(p.side, s), p.occupancies[1 - p.side], t);
    }
    PushesSound(p, piece, Index(s));
    PawnCapturesSound(p, piece, Index(s), targets);
    EnPassantSound(p, piece, s);
    Joined(p, Pushes(p, piece, Index(s)), PawnCaptures(p, piece, Index(s), targets));
    Joined(p, Pushes(p, piece, Index(s)) + PawnCaptures(p, piece, Index(s), targets), EnPassant(p, piece, s));
  }

  // ----- The other pieces -----

  /** The move to t: from s, with the capture flag set exactly when an enemy piece stands on t,
      and no other flag. */
  lemma TargetMoveFields(p: Position, piece: int, s: int, t: Square)
    requires Valid(p) && 0 <= piece < 12 && 0 <= s < 64
    ensures var m := TargetMove(p, piece, s, t);
      Source(m) == s && Target(m) == Index(t) && Piece(m) == piece && Promoted(m) == 0 &&
      (IsCapture(m) <==> GetBit(p.occupancies[1 - p.side], t)) &&
      !IsDoublePush(m) && !IsEnPassant(m) && !IsCastling(m)
  {
    var c := FlagOf(GetBit(p.occupancies[1 - p.side], t));
    EncodeDecode(s, Index(t), piece, 0, c, 0, 0, 0);
    assert TargetMove(p, piece, s, t) == Encode(s, Index(t), piece, 0, c, 0, 0, 0);
  }

  lemma TargetMoveSound(p: Position, piece: int, s: int, t: Square)
    requires Valid(p) && BoardOf(p.side, Pawn) <= piece <= BoardOf(p.side, King) && 0 <= s < 64
    requires Stands(p, piece, s)
    ensures Sound(p, TargetMove(p, piece, s, t))
  {
    var c := FlagOf(GetBit(p.occupancies[1 - p.side], t));
    OfIndex(t);
    assert c == 0 ==> QuietTarget(p, Index(t));
    EncodedSound(p, s, Index(t), piece, 0, c, 0, 0, 0);
  }

  lemma {:induction false} TargetMovesSound(p: Position, piece: int, s: int, targets: Bitboard)
    requires Valid(p) && BoardOf(p.side, Pawn) <= piece <= BoardOf(p.side, King) && 0 <= s < 64
    requires Stands(p, piece, s)
    ensures AllSound(p, TargetMoves(p, piece, s, targets))
    decreases PopCount(targets)
  {
    if targets != 0 {
      TargetMoveSound(p, piece, s, Lsb(targets));
      Single(p, TargetMove(p, piece, s, Lsb(targets)));
      TargetMovesSound(p, piece, s, Rest(targets));
      Joined(p, [TargetMove(p, piece, s, Lsb(targets))], TargetMoves(p, piece, s, Rest(targets)));
    }
  }

  /** Every move to a square of `targets` is generated. */
  lemma {:induction false} TargetMovesHas(p: Position, piece: int, s: int, targets: Bitboard, t: Square)
    requires Valid(p) && 0 <= piece < 12 && 0 <= s < 64 && GetBit(targets, t)
    ensures TargetMove(p, piece, s, t) in TargetMoves(p, piece, s, targets)
    decreases PopCount(targets)
  {
    LsbSet(targets);
    RestSpec(targets, t);
    if t != Lsb(targets) {
      TargetMovesHas(p, piece, s, Rest(targets), t);
    }
  }

  /** Every generated move goes to a square of `targets`. */
  lemma {:induction false} TargetMovesOnly(p: Position, piece: int, s: int, targets: Bitboard, m: Move)
    requires Valid(p) && 0 <= piece < 12 && 0 <= s < 64 && m in TargetMoves(p, piece, s, targets)
    ensures exists t :: GetBit(targets, t) && m == TargetMove(p, piece, s, t)
    decreases PopCount(targets)
  {
    LsbSet(targets);
    if m != TargetMove(p, piece, s, Lsb(targets)) {
      TargetMovesOnly(p, piece, s, Rest(targets), m);
      var t :| GetBit(Rest(targets), t) && m == TargetMove(p, piece, s, t);
      RestSpec(targets, t);
    }
  }

  /** The moves to the squares of `targets` are exactly one move to each of them. */
  lemma TargetMovesSpec(p: Position, piece: int, s: int, targets: Bitboard, m: Move)
    requires Valid(p) && 0 <= piece < 12 && 0 <= s < 64
    ensures m in TargetMoves(p, piece, s, targets) <==>
      exists t :: GetBit(targets, t) && m == TargetMove(p, piece, s, t)
  {
    if m in TargetMoves(p, piece, s, targets) {
      TargetMovesOnly(p, piece, s, targets, m);
    }
    if exists t :: GetBit(targets, t) && m == TargetMove(p, piece, s, t) {
      var t :| GetBit(targets, t) && m == TargetMove(p, piece, s, t);
      TargetMovesHas(p, piece, s, targets, t);
    }
  }

  /** The moves to the squares of attacks that are not in own. */
  lemma MinusMoves(p: Position, piece: int, s: int, attacks: Bitboard, own: Bitboard, m: Move)
    requires Valid(p) && 0 <= piece < 12 && 0 <= s < 64
    ensures m in TargetMoves(p, piece, s, Minus(attacks, own)) <==>
      exists t :: GetBit(attacks, t) && !GetBit(own, t) && m == TargetMove(p, piece, s, t)
  {
    var targets := Minus(attacks, own);
    TargetMovesSpec(p, piece, s, targets, m);
    if m in TargetMoves(p, piece, s, targets) {
      var t :| GetBit(targets, t) && m == TargetMove(p, piece, s, t);
      MinusSpec(attacks, own, t);
    } else {
      forall t | GetBit(attacks, t) && !GetBit(own, t) ensures m != TargetMove(p, piece, s, t) {
        MinusSpec(attacks, own, t);
      }
    }
  }

  /** A knight, bishop, rook, queen or king on s moves to exactly the squares it attacks that no
      piece of its own side stands on, capturing exactly when an enemy piece stands there. */
  lemma PieceMovesSpec(p: Position, piece: int, s: Square, m: Move)
    requires Valid(p) && BoardOf(p.side, Knight) <= piece <= BoardOf(p.side, King)
    ensures m in SourceMoves(p, piece, s) <==>
      exists t :: GetBit(PieceAttacks(p, piece - BoardOf(p.side, Pawn), s), t) &&
        !GetBit(p.occupancies[p.side], t) && m == TargetMove(p, piece, Index(s), t)
  {
    PieceSourceMoves(p, piece, s);
    MinusMoves(p, piece, Index(s), PieceAttacks(p, piece - BoardOf(p.side, Pawn), s), p.occupancies[p.side], m);
  }

  // ----- Castling -----

  /** An allowed castle lands the king on an empty square. */
  lemma CastleMoveSound(p: Position, piece: int, kingSide: bool)
    requires Valid(p) && piece == BoardOf(p.side, King)
    requires if kingSide then KingSideAllowed(p) else QueenSideAllowed(p)
    ensures Sound(p, CastleMove(p.side, piece, kingSide))
  {}

  lemma CastlesShape(p: Position, piece: int)
    requires Valid(p) && 0 <= piece < 12
    ensures Castles(p, piece) == KingSideCastle(p, piece) + QueenSideCastle(p, piece)
  {}

  lemma KingSideSound(p: Position, piece: int)
    requires Valid(p) && piece == BoardOf(p.side, King)
    ensures AllSound(p, KingSideCastle(p, piece))
  {
    var m := CastleMove(p.side, piece, true);
    if KingSideAllowed(p) {
      CastleMoveSound(p, piece, true);
      Single(p, m);
    }
  }

  lemma QueenSideSound(p: Position, piece: int)
    requires Valid(p) && piece == BoardOf(p.side, King)
    ensures AllSound(p, QueenSideCastle(p, piece))
  {
    var m := CastleMove(p.side, piece, false);
    if QueenSideAllowed(p) {
      CastleMoveSound(p, piece, false);
      Single(p, m);
    }
  }

  lemma CastlesSound(p: Position, piece: int)
    requires Valid(p) && piece == BoardOf(p.side, King)
    ensures AllSound(p, Castles(p, piece))
  {
    CastlesShape(p, piece);
    KingSideSound(p, piece);
    QueenSideSound(p, piece);
    Joined(p, KingSideCastle(p, piece), QueenSideCastle(p, piece));
  }

  /** The castling moves are listed exactly when the rules of KingSideAllowed and
      QueenSideAllowed hold: the right, the empty squares between king and rook, and no attack on
      the king's square or the square it crosses. */
  lemma KingSideCastleIs(p: Position, piece: int)
    requires Valid(p) && piece == BoardOf(p.side, King)
    ensures KingSideCastle(p, piece) == if KingSideAllowed(p) then [CastleMove(p.side, piece, true)] else []
  {}

  lemma QueenSideCastleIs(p: Position, piece: int)
    requires Valid(p) && piece == BoardOf(p.side, King)
    ensures QueenSideCastle(p, piece) == if QueenSideAllowed(p) then [CastleMove(p.side, piece, false)] else []
  {}

  /** Of two different optional moves, each is present exactly when its own condition holds. */
  lemma EitherOf(k: Move, q: Move, a: bool, b: bool)
    requires k != q
    ensures k in (if a then [k] else []) + (if b then [q] else []) <==> a
    ensures q in (if a then [k] else []) + (if b then [q] else []) <==> b
  {}

  /** Each castling right is generated exactly when it is allowed. */
  lemma CastlesSpec(p: Position, piece: int)
    requires Valid(p) && piece == BoardOf(p.side, King)
    ensures CastleMove(p.side, piece, true) in Castles(p, piece) <==> KingSideAllowed(p)
    ensures CastleMove(p.side, piece, false) in Castles(p, piece) <==> QueenSideAllowed(p)
  {
    CastlesShape(p, piece);
    KingSideCastleIs(p, piece);
    QueenSideCastleIs(p, piece);
    var k, q := CastleMove(p.side, piece, true), CastleMove(p.side, piece, false);
    EitherOf(k, q, KingSideAllowed(p), QueenSideAllowed(p));
  }

  // ----- The whole list -----

  lemma PawnSourceSound(p: Position, piece: int, s: Square)
    requires Valid(p) && piece == BoardOf(p.side, Pawn) && Stands(p, piece, Index(s))
    ensures AllSound(p, SourceMoves(p, piece, s))
  {
    PawnMovesSound(p, piece, s);
    PawnSourceMoves(p, piece, s);
  }

  lemma PieceSourceSound(p: Position, piece: int, s: Square)
    requires Valid(p) && BoardOf(p.side, Knight) <= piece <= BoardOf(p.side, King) && Stands(p, piece, Index(s))
    ensures AllSound(p, SourceMoves(p, piece, s))
  {
    TargetMovesSound(p, piece, Index(s), Minus(PieceAttacks(p, piece - BoardOf(p.side, Pawn), s), p.occupancies[p.side]));
    PieceSourceMoves(p, piece, s);
  }

  lemma SourceMovesSound(p: Position, piece: int, s: Square)
    requires Valid(p) && BoardOf(p.side, Pawn) <= piece <= BoardOf(p.side, King) && Stands(p, piece, Index(s))
    ensures AllSound(p, SourceMoves(p, piece, s))
  {
    if piece == BoardOf(p.side, Pawn) {
      PawnSourceSound(p, piece, s);
    } else {
      PieceSourceSound(p, piece, s);
    }
  }

  lemma {:induction false} SourcesMovesSound(p: Position, piece: int, sources: Bitboard)
    requires Valid(p) && BoardOf(p.side, Pawn) <= piece <= BoardOf(p.side, King)
    requires forall t :: GetBit(sources, t) ==> GetBit(p.bitboards[piece], t)
    ensures AllSound(p, SourcesMoves(p, piece, sources))
    decreases PopCount(sources)
  {
    if sources != 0 {
      LsbSet(sources);
      forall u | GetBit(Rest(sources), u) ensures GetBit(sources, u) {
        RestSpec(sources, u);
      }
      SourceMovesSound(p, piece, Lsb(sources));
      SourcesMovesSound(p, piece, Rest(sources));
      Joined(p, SourceMoves(p, piece, Lsb(sources)), SourcesMoves(p, piece, Rest(sources)));
    }
  }

  lemma PieceMovesSound(p: Position, piece: int)
    requires Valid(p) && BoardOf(p.side, Pawn) <= piece <= BoardOf(p.side, King)
    ensures AllSound(p, PieceMoves(p, piece))
  {
    if piece == BoardOf(p.side, King) {
      CastlesSound(p, piece);
    }
    SourcesMovesSound(p, piece, p.bitboards[piece]);
    Joined(p, if piece == BoardOf(p.side, King) then Castles(p, piece) else [], SourcesMoves(p, piece, p.bitboards[piece]));
  }

  lemma {:induction false} MovesBelowSound(p: Position, hi: int)
    requires Valid(p) && BoardOf(p.side, Pawn) <= hi <= BoardOf(p.side, King) + 1
    ensures AllSound(p, MovesBelow(p, hi))
    decreases hi
  {
    if hi > BoardOf(p.side, Pawn) {
      MovesBelowSound(p, hi - 1);
      PieceMovesSound(p, hi - 1);
      Joined(p, MovesBelow(p, hi - 1), PieceMoves(p, hi - 1));
    }
  }

  /** Every move generateMoves lists is sound for the position it was generated in. */
  lemma GenMovesSound(p: Position)
    requires Valid(p)
    ensures forall m :: m in GenMoves(p) ==> Sound(p, m)
  {
    MovesBelowSound(p, BoardOf(p.side, King) + 1);
  }

  /** A double push in the list is the side's pawn standing on its home rank, going two squares
      forward over an empty square onto an empty square. */
  lemma DoublePushSound(p: Position, m: Move)
    requires Valid(p) && m in GenMoves(p) && IsDoublePush(m)
    ensures Piece(m) == BoardOf(p.side, Pawn) && GetBit(p.bitboards[Piece(m)], SquareOf(Source(m)))
    ensures OnRank(Source(m), HomeRank(p.side))
    ensures 0 <= Behind(p.side, Target(m)) < 64 && Source(m) == Behind(p.side, Behind(p.side, Target(m)))
    ensures Empty(p, Behind(p.side, Target(m))) && Empty(p, Target(m))
  {
    GenMovesSound(p);
    assert Sound(p, m);
    assert DoublePushFrom(p, Piece(m), Source(m), Target(m));
  }

  /** The pushes of a pawn on its home rank hold the double push when both squares ahead are
      empty. */
  lemma DoublePushPushes(p: Position, piece: int, s: int)
    requires Valid(p) && 0 <= piece < 12 && 0 <= s < 64 && OnRank(s, HomeRank(p.side))
    requires var t := if p.side == White then s - 8 else s + 8;
      var u := if p.side == White then s - 16 else s + 16;
      Empty(p, t) && Empty(p, u)
    ensures Encode(s, if p.side == White then s - 16 else s + 16, piece, 0, 0, 1, 0, 0) in Pushes(p, piece, s)
  {
    var t := if p.side == White then s - 8 else s + 8;
    var u := if p.side == White then t - 8 else t + 8;
    var double := Encode(s, u, piece, 0, 0, 1, 0, 0);
    assert Pushes(p, piece, s) == [double] + [Encode(s, t, piece, 0, 0, 0, 0, 0)];
  }

  /** The moves of every square of `sources` are in the list of `sources`. */
  lemma {:induction false} SourcesMovesHas(p: Position, piece: int, sources: Bitboard, s: Square, m: Move)
    requires Valid(p) && BoardOf(p.side, Pawn) <= piece <= BoardOf(p.side, King)
    requires GetBit(sources, s) && m in SourceMoves(p, piece, s)
    ensures m in SourcesMoves(p, piece, sources)
    decreases PopCount(sources)
  {
    LsbSet(sources);
    RestSpec(sources, s);
    if s != Lsb(sources) {
      SourcesMovesHas(p, piece, Rest(sources), s, m);
    }
  }

  /** The moves of a board below hi are in the list of the boards below hi. */
  lemma {:induction false} MovesBelowHas(p: Position, piece: int, hi: int, m: Move)
    requires Valid(p) && BoardOf(p.side, Pawn) <= piece < hi <= BoardOf(p.side, King) + 1
    requires m in PieceMoves(p, piece)
    ensures m in MovesBelow(p, hi)
    decreases hi
  {
    if piece < hi - 1 {
      MovesBelowHas(p, piece, hi - 1, m);
    }
  }

  /** Conversely, a pawn of the side on its home rank with both squares ahead empty gets its
      double push in the list. */
  lemma DoublePushListed(p: Position, s: int)
    requires Valid(p) && 0 <= s < 64 && Stands(p, BoardOf(p.side, Pawn), s) && OnRank(s, HomeRank(p.side))
    requires var t := if p.side == White then s - 8 else s + 8;
      var u := if p.side == White then s - 16 else s + 16;
      Empty(p, t) && Empty(p, u)
    ensures Encode(s, if p.side == White then s - 16 else s + 16, BoardOf(p.side, Pawn), 0, 0, 1, 0, 0) in GenMoves(p)
  {
    var piece := BoardOf(p.side, Pawn);
    var m := Encode(s, if p.side == White then s - 16 else s + 16, piece, 0, 0, 1, 0, 0);
    DoublePushPushes(p, piece, s);
    IndexOf(s);
    assert m in PawnMoves(p, piece, SquareOf(s));
    SourcesMovesHas(p, piece, p.bitboards[piece], SquareOf(s), m);
    OtherPieceMoves(p, piece);
    MovesBelowHas(p, piece, BoardOf(p.side, King) + 1, m);
  }

  /** A move of the list without the capture flag goes to a square no enemy piece holds, when
      the occupancies agree with the boards as makeMove leaves them: together with Sound, the
      capture flag is set exactly when an enemy piece stands on the target (en passant aside). */
  lemma QuietMovesFree(p: Position, m: Move)
    requires Valid(p) && Consistent(p) && m in GenMoves(p) && !IsCapture(m)
    ensures !GetBit(p.occupancies[1 - p.side], SquareOf(Target(m)))
  {
    GenMovesSound(p);
    assert Sound(p, m);
    QuietTargetFree(p, Target(m));
  }

  /** Every move of the generated list names one of the twelve pieces. */
  lemma PiecesInRange(p: Position, ms: seq<Move>)
    requires Valid(p) && ms == GenMoves(p)
    ensures forall m :: m in ms ==> Piece(m) < 12
  {
    GenMovesSound(p);
  }
}
