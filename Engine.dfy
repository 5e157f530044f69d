// The engine's global board (bitboards, occupancies, side, enpassant, castle, together with ply
// and bestMove that the search keeps) and the operations of engine/main.c that read or change it
// in place: copy_board/restore_board, isSquareAttacked, makeMove and generateMoves. The leaper
// tables pawnAttacks, knightAttacks and kingAttacks cache the functions of Leapers.dfy and are
// read through them; the slider tables are the initialised SliderTables of Tables.dfy.
module Engine {
  import opened Bits
  import opened Leapers
  import opened Sliders
  import opened Tables
  import opened Moves
  import opened State
  import opened Generate
  import opened Eval
  import opened GenerateFacts
  import opened Order
  import opened Search


  /** The moveFlag argument of makeMove. */
  const AllMoves := 0
  const OnlyCaptures := 1

  class Board {
    var bitboards: seq<Bitboard>
    var occupancies: seq<Bitboard>
    var side: int
    var enpassant: int
    var castle: bv4
    var ply: int
    var bestMove: Move
    var nodes: int
    const tables: SliderTables

    /** What copy_board saves. */
    function Snapshot(): Position
      reads this`bitboards, this`occupancies, this`side, this`enpassant, this`castle
    {
      Position(bitboards, occupancies, side, enpassant, castle)
    }

    /** The globals have the right shape. */
    ghost predicate Valid()
      reads this`bitboards, this`occupancies, this`side, this`enpassant, this`castle
    {
      State.Valid(Snapshot())
    }

    /** The slider tables are initialised (initSliderAttacks has run); no method of the board
        changes them, so this holds for good once it holds. */
    ghost predicate Ready()
      reads tables, tables.bishopMasks, tables.rookMasks, tables.bishopAttacks, tables.rookAttacks
    {
      tables.Valid() && tables.MasksReady() && tables.Filled(true) && tables.Filled(false)
    }

    /** A board set up on a given position (as parseFENString would leave it) with ply 0. */
    constructor (tables: SliderTables, p: Position)
      requires State.Valid(p) && tables.Valid() && tables.MasksReady() && tables.Filled(true) &&
        tables.Filled(false)
      ensures Valid() && Ready() && this.tables == tables && Snapshot() == p && ply == 0 && nodes == 0
    {
      this.tables := tables;
      bitboards, occupancies, side, enpassant, castle := p.bitboards, p.occupancies, p.side, p.enpassant, p.castle;
      ply, nodes := 0, 0;
    }

    /** restore_board: put a saved copy back; ply and bestMove are not part of it. */
    method Restore(p: Position)
      requires Valid() && State.Valid(p)
      modifies this`bitboards, this`occupancies, this`side, this`enpassant, this`castle
      ensures Valid() && Snapshot() == p
    {
      bitboards, occupancies, side, enpassant, castle := p.bitboards, p.occupancies, p.side, p.enpassant, p.castle;
    }

    /** isSquareAttacked: is the square attacked by a piece of the given side? Pawns through the
        other side's pawn mask, knights and kings through theirs, sliders through the lookups. */
    method IsSquareAttacked(square: Square, side: int) returns (r: bool)
      requires Valid() && Ready() && (side == White || side == Black)
      ensures r == Attacked(Snapshot(), square, side)
    {
      var bishop, rook, queen := Lookup(Bishop, square), Lookup(Rook, square), Lookup(Queen, square);
      AttackTestSpec(Snapshot(), square, side, bishop, rook, queen);
      r := AttackTest(Snapshot(), square, side, bishop, rook, queen);
    }

    /** getBishopAttacks, getRookAttacks or getQueenAttacks of the square with the occupancy of
        both sides: the ray walks from the square over the board. */
    function Lookup(kind: int, square: Square): (r: Bitboard)
      reads this`bitboards, this`occupancies, this`side, this`enpassant, this`castle, tables, tables.bishopMasks, tables.rookMasks, tables.bishopAttacks, tables.rookAttacks
      requires Valid() && Ready() && Bishop <= kind <= Queen
      ensures Members(r) == SliderRays(kind, square, Members(occupancies[Both]))
    {
      if kind == Bishop then tables.GetBishopAttacks(square, occupancies[Both])
      else if kind == Rook then tables.GetRookAttacks(square, occupancies[Both])
      else tables.GetQueenAttacks(square, occupancies[Both])
    }

    /** The capture loop of makeMove: scan the enemy boards in piece order and pop the target
        from the first that holds it. */
    method RemoveCapture(t: Square)
      requires Valid()
      modifies this`bitboards
      ensures Valid() && bitboards == RemoveCaptured(old(bitboards), side, t)
    {
      var lo := BoardOf(1 - side, Pawn);
      var i := lo;
      while i <= BoardOf(1 - side, King)
        invariant lo <= i <= lo + 6 && bitboards == old(bitboards)
        invariant FirstHolder(bitboards, i, lo + 6, t) == FirstHolder(bitboards, lo, lo + 6, t)
      {
        if GetBit(bitboards[i], t) {
          bitboards := bitboards[i := PopBit(bitboards[i], t)];
          break;
        }
        i := i + 1;
      }
    }

    /** The first step of makeMove: the piece leaves the source and lands on the target. */
    method MoveStep(piece: int, s: Square, t: Square)
      requires Valid() && 0 <= piece < 12
      modifies this`bitboards
      ensures Valid() && bitboards == MovePiece(old(bitboards), piece, s, t)
    {
      bitboards := bitboards[piece := PopBit(bitboards[piece], s)];
      bitboards := bitboards[piece := SetBit(bitboards[piece], t)];
    }

    /** The promotion step, with the pawn taken off the target where it has just arrived. */
    method PromoteStep(promoted: int, t: Square)
      requires Valid() && 0 <= promoted < 12
      modifies this`bitboards
      ensures Valid() && bitboards == Promote(old(bitboards), side, promoted, t)
    {
      var pawn := BoardOf(side, Pawn);
      bitboards := bitboards[pawn := PopBit(bitboards[pawn], t)];
      bitboards := bitboards[promoted := SetBit(bitboards[promoted], t)];
    }

    /** The en-passant step: the enemy pawn behind the target is taken and the mover is set on
        the target. */
    method EnPassantStep(piece: int, target: int)
      requires Valid() && 0 <= piece < 12 && 0 <= target < 64 && 0 <= Behind(side, target) < 64
      modifies this`bitboards
      ensures Valid() && bitboards == EnPassantCapture(old(bitboards), side, piece, target)
    {
      var enemyPawn := if side == White then BoardOf(Black, Pawn) else BoardOf(White, Pawn);
      var behind := if side == White then target + 8 else target - 8;
      bitboards := bitboards[enemyPawn := PopBit(bitboards[enemyPawn], SquareOf(behind))];
      bitboards := bitboards[piece := SetBit(bitboards[piece], SquareOf(target))];
    }

    /** The castling step: move the rook on the king's side of the target square. */
    method CastleStep(target: int)
      requires Valid()
      modifies this`bitboards
      ensures Valid() && bitboards == CastleRook(old(bitboards), target)
    {
      var white, black := BoardOf(White, Rook), BoardOf(Black, Rook);
      if target == 62 {
        bitboards := bitboards[white := SetBit(PopBit(bitboards[white], 63), 61)];
      } else if target == 58 {
        bitboards := bitboards[white := SetBit(PopBit(bitboards[white], 56), 59)];
      } else if target == 6 {
        bitboards := bitboards[black := SetBit(PopBit(bitboards[black], 7), 5)];
      } else if target == 2 {
        bitboards := bitboards[black := SetBit(PopBit(bitboards[black], 0), 3)];
      }
    }

    /** The piece-board part of makeMove: move the piece, take a captured piece, promote, take a
        pawn en passant, move the castling rook. */
    method Place(m: Move)
      requires Valid() && Playable(Snapshot(), m)
      modifies this`bitboards
      ensures Valid() && bitboards == Placed(old(Snapshot()), m, true)
    {
      var source, target, piece := Source(m), Target(m), Piece(m);
      var s, t := SquareOf(source), SquareOf(target);
      MoveStep(piece, s, t);
      if IsCapture(m) {
        RemoveCapture(t);
      }
      if Promoted(m) != 0 {
        PromoteStep(Promoted(m), t);
      }
      if IsEnPassant(m) {
        EnPassantStep(piece, target);
      }
      if IsCastling(m) {
        CastleStep(target);
      }
    }

    /** The occupancy loops of makeMove: clear all three, then OR every white board into white and
        both, and every black board into black and both. The running values are kept in locals
        and stored once the loops are done. */
    method ResetOccupancies()
      requires Valid()
      modifies this`occupancies
      ensures Valid() && occupancies == Occupancies(bitboards)
    {
      var bbs := bitboards;
      var white, black, both: Bitboard := 0, 0, 0;
      for piece := BoardOf(White, Pawn) to BoardOf(White, King) + 1
        invariant white == OrRange(bbs, 0, piece) && both == OrRange(bbs, 0, piece)
      {
        OrStep(bbs, 0, piece, white, both);
        white := Or(white, bbs[piece]);
        both := Or(both, bbs[piece]);
      }
      for piece := BoardOf(Black, Pawn) to BoardOf(Black, King) + 1
        invariant black == OrRange(bbs, 6, piece) && both == OrRange(bbs, 0, piece)
      {
        OrStep(bbs, 6, piece, black, both);
        black := Or(black, bbs[piece]);
        both := Or(both, bbs[piece]);
      }
      occupancies := [white, black, both];
    }

    /** The part of makeMove before the legality test: the piece boards, the en-passant square,
        the castling rights, the occupancies and the side to move. */
    method Play(m: Move)
      requires Valid() && Playable(Snapshot(), m)
      modifies this`bitboards, this`occupancies, this`enpassant, this`castle, this`side
      ensures Valid() && Snapshot() == Apply(old(Snapshot()), m)
    {
      ghost var p := Snapshot();
      Place(m);
      SetEnPassant(m);
      RevokeRights(m);
      ResetOccupancies();
      side := 1 - side;
      ApplyIs(p, m, Snapshot());
    }

    /** The en-passant update of makeMove: cleared, then set behind the target of a double push. */
    method SetEnPassant(m: Move)
      requires Valid() && Playable(Snapshot(), m)
      modifies this`enpassant
      ensures Valid() && enpassant == EnPassantAfter(side, m)
    {
      var target := Target(m);
      enpassant := NoSquare;
      if IsDoublePush(m) {
        enpassant := if side == White then target + 8 else target - 8;
      }
    }

    /** The castling update of makeMove: the rights are ANDed with the masks of the source and
        the target square. */
    method RevokeRights(m: Move)
      modifies this`castle
      ensures castle == Revoked(old(castle), m)
    {
      var source, target := Source(m), Target(m);
      castle := castle & CastlingRights(source);
      castle := castle & CastlingRights(target);
    }

    /** The legality test of makeMove, after the side has been flipped: is the king of the side
        that moved attacked by the side now to move? A board without that king is not in check. */
    method KingLeftAttacked(ghost p: Position, ghost m: Move) returns (r: bool)
      requires Valid() && Ready() && State.Valid(p) && Playable(p, m) && Snapshot() == Apply(p, m)
      ensures r == LeavesKingAttacked(p, m)
    {
      var king := if side == White then bitboards[BoardOf(Black, King)] else bitboards[BoardOf(White, King)];
      r := false;
      if king != 0 {
        r := IsSquareAttacked(Lsb(king), side);
      }
    }

    /** makeMove: with allMoves, play the move and keep it when the mover's king is not left
        attacked, restoring the saved board otherwise; with onlyCaptures, do the same for a
        capture and refuse any other move. The result tells whether the move was kept. */
    method MakeMove(m: Move, flag: int) returns (made: bool)
      requires Valid() && Ready() && Playable(Snapshot(), m)
      modifies this`bitboards, this`occupancies, this`side, this`enpassant, this`castle
      ensures Valid()
      ensures made == ((flag == AllMoves || IsCapture(m)) && Legal(old(Snapshot()), m))
      ensures Snapshot() == if made then Apply(old(Snapshot()), m) else old(Snapshot())
    {
      if flag == AllMoves {
        made := MakeLegal(m);
      } else {
        if IsCapture(m) {
          made := MakeLegal(m);
        } else {
          made := false;
        }
      }
    }

    /** The allMoves branch of makeMove: play the move, then take it back when it leaves the
        mover's king attacked. */
    method MakeLegal(m: Move) returns (made: bool)
      requires Valid() && Ready() && Playable(Snapshot(), m)
      modifies this`bitboards, this`occupancies, this`side, this`enpassant, this`castle
      ensures Valid()
      ensures made == Legal(old(Snapshot()), m)
      ensures Snapshot() == if made then Apply(old(Snapshot()), m) else old(Snapshot())
    {
      var copy := Snapshot();
      Play(m);
      var attacked := KingLeftAttacked(copy, m);
      if attacked {
        Restore(copy);
        made := false;
      } else {
        made := true;
      }
    }

    // ----- evaluate -----

    /** evaluate: the material and piece-square total of every board in piece order, negated when
        black is to move. */
    method Evaluate() returns (score: int)
      requires Valid()
      ensures score == Evaluation(Snapshot())
    {
      var total := 0;
      for piece := 0 to 12
        invariant total == ScoreBelow(Snapshot(), piece)
      {
        total := AddBoard(total, piece, bitboards[piece]);
      }
      score := if side == White then total else -total;
    }

    // ----- generateMoves -----

    /** generateMoves: empty the list, then run the piece loop over the boards of the side to
        move. The program writes past the end of the list when it is full, so the model requires
        the moves to fit. */
    method GenerateMoves(list: MoveList)
      requires Valid() && Ready() && list.Valid() && |GenMoves(Snapshot())| <= 256
      modifies list`count, list.moves
      ensures list.Valid() && list.Contents() == GenMoves(Snapshot())
    {
      ghost var p := Snapshot();
      list.Clear();
      for piece := Pawn + 6 * side to King + 6 * side + 1
        invariant list.Valid() && list.Contents() == MovesBelow(p, piece) && Snapshot() == p
      {
        PieceFits(p, piece);
        AddPieceMoves(list, piece);
      }
    }

    /** One turn of the piece loop: the castling moves for the king, then, square by square from
        the lowest, the moves of every piece on the board. */
    method AddPieceMoves(list: MoveList, piece: int)
      requires Valid() && Ready() && list.Valid() && BoardOf(side, Pawn) <= piece <= BoardOf(side, King)
      requires list.count + |PieceMoves(Snapshot(), piece)| <= 256
      modifies list`count, list.moves
      ensures list.Valid() && list.Contents() == old(list.Contents()) + PieceMoves(Snapshot(), piece)
    {
      if piece == BoardOf(side, King) {
        AddKingMoves(list, piece);
      } else {
        OtherPieceMoves(Snapshot(), piece);
        AddSources(list, piece, bitboards[piece]);
      }
    }

    /** The king's turn of the piece loop: the castling moves, then the king's own moves. */
    method AddKingMoves(list: MoveList, piece: int)
      requires Valid() && Ready() && list.Valid() && piece == BoardOf(side, King)
      requires list.count + |PieceMoves(Snapshot(), piece)| <= 256
      modifies list`count, list.moves
      ensures list.Valid() && list.Contents() == old(list.Contents()) + PieceMoves(Snapshot(), piece)
    {
      ghost var p, before := Snapshot(), list.Contents();
      ghost var castles, sourced := Castles(p, piece), SourcesMoves(p, piece, bitboards[piece]);
      AddCastles(list, piece);
      assert Snapshot() == p && list.Contents() == before + castles;
      AddSources(list, piece, bitboards[piece]);
      AppendTwice(before, castles, sourced);
    }

    /** The loop over the squares of a piece's board, lowest first. */
    method AddSources(list: MoveList, piece: int, sources: Bitboard)
      requires Valid() && Ready() && list.Valid() && BoardOf(side, Pawn) <= piece <= BoardOf(side, King)
      requires list.count + |SourcesMoves(Snapshot(), piece, sources)| <= 256
      modifies list`count, list.moves
      ensures list.Valid() && list.Contents() == old(list.Contents()) + SourcesMoves(Snapshot(), piece, sources)
    {
      ghost var p := Snapshot();
      var bitboard := sources;
      while bitboard != 0
        invariant list.Valid()
        invariant list.Contents() + SourcesMoves(p, piece, bitboard) == old(list.Contents()) + SourcesMoves(p, piece, sources)
        decreases PopCount(bitboard)
      {
        bitboard := NextSource(list, piece, bitboard);
      }
    }

    /** One turn of a piece's loop: the moves of the piece on the lowest square, then that square
        popped. */
    method NextSource(list: MoveList, piece: int, sources: Bitboard) returns (rest: Bitboard)
      requires Valid() && Ready() && list.Valid() && BoardOf(side, Pawn) <= piece <= BoardOf(side, King) && sources != 0
      requires list.count + |SourcesMoves(Snapshot(), piece, sources)| <= 256
      modifies list`count, list.moves
      ensures list.Valid() && rest == Rest(sources)
      ensures list.Contents() + SourcesMoves(Snapshot(), piece, rest) == old(list.Contents()) + SourcesMoves(Snapshot(), piece, sources)
    {
      ghost var p, before := Snapshot(), list.Contents();
      rest := Rest(sources);
      ghost var first, others := SourceMoves(p, piece, Lsb(sources)), SourcesMoves(p, piece, rest);
      assert SourcesMoves(p, piece, sources) == first + others;
      AddSourceMoves(list, piece, Lsb(sources));
      assert Snapshot() == p;
      AppendTwice(before, first, others);
    }

    /** The moves of one piece: the pawn block for a pawn; for the others, a move to every square
        of the attack set that no piece of the side stands on. */
    method AddSourceMoves(list: MoveList, piece: int, source: Square)
      requires Valid() && Ready() && list.Valid() && BoardOf(side, Pawn) <= piece <= BoardOf(side, King)
      requires list.count + |SourceMoves(Snapshot(), piece, source)| <= 256
      modifies list`count, list.moves
      ensures list.Valid() && list.Contents() == old(list.Contents()) + SourceMoves(Snapshot(), piece, source)
    {
      if piece == BoardOf(side, Pawn) {
        AddPawnSource(list, piece, source);
      } else {
        AddPieceSource(list, piece, source);
      }
    }

    /** The moves of a pawn: pushes, captures and the en-passant capture. */
    method AddPawnSource(list: MoveList, piece: int, source: Square)
      requires Valid() && Ready() && list.Valid() && piece == BoardOf(side, Pawn)
      requires list.count + |SourceMoves(Snapshot(), piece, source)| <= 256
      modifies list`count, list.moves
      ensures list.Valid() && list.Contents() == old(list.Contents()) + SourceMoves(Snapshot(), piece, source)
    {
      ghost var p := Snapshot();
      PawnSourceMoves(p, piece, source);
      AddPawnMoves(list, piece, source);
      assert Snapshot() == p;
    }

    /** The moves of a knight, bishop, rook, queen or king: one to each attacked square that no
        piece of its own side stands on. */
    method AddPieceSource(list: MoveList, piece: int, source: Square)
      requires Valid() && Ready() && list.Valid() && BoardOf(side, Knight) <= piece <= BoardOf(side, King)
      requires list.count + |SourceMoves(Snapshot(), piece, source)| <= 256
      modifies list`count, list.moves
      ensures list.Valid() && list.Contents() == old(list.Contents()) + SourceMoves(Snapshot(), piece, source)
    {
      ghost var p := Snapshot();
      var attacks := Attacks(piece - BoardOf(side, Pawn), source);
      var targets := Minus(attacks, occupancies[side]);
      PieceSourceMoves(p, piece, source);
      AddTargets(list, piece, Index(source), targets);
      assert Snapshot() == p;
    }

    /** The attack set a knight, bishop, rook, queen or king on the square would have: the leaper
        tables for knights and kings, the slider lookups for the others. */
    method Attacks(kind: int, source: Square) returns (attacks: Bitboard)
      requires Valid() && Ready() && Knight <= kind <= King
      ensures attacks == PieceAttacks(Snapshot(), kind, source)
    {
      if kind == Knight {
        attacks := KnightAttacks(source);
      } else if kind == King {
        attacks := KingAttacks(source);
      } else {
        attacks := Lookup(kind, source);
        SliderAttacksAre(Snapshot(), kind, source, attacks);
      }
    }

    /** The loop over the target squares of a knight, bishop, rook, queen or king. */
    method AddTargets(list: MoveList, piece: int, source: int, targets: Bitboard)
      requires Valid() && list.Valid() && 0 <= piece < 12 && 0 <= source < 64
      requires list.count + |TargetMoves(Snapshot(), piece, source, targets)| <= 256
      modifies list`count, list.moves
      ensures list.Valid() && list.Contents() == old(list.Contents()) + TargetMoves(Snapshot(), piece, source, targets)
    {
      ghost var p := Snapshot();
      var attacks := targets;
      while attacks != 0
        invariant list.Valid()
        invariant list.Contents() + TargetMoves(p, piece, source, attacks) == old(list.Contents()) + TargetMoves(p, piece, source, targets)
        decreases PopCount(attacks)
      {
        attacks := NextTarget(list, piece, source, attacks);
      }
    }

    /** One turn of the target loop: the move to the lowest target, then that target popped. */
    method NextTarget(list: MoveList, piece: int, source: int, attacks: Bitboard) returns (rest: Bitboard)
      requires Valid() && list.Valid() && 0 <= piece < 12 && 0 <= source < 64 && attacks != 0
      requires list.count + |TargetMoves(Snapshot(), piece, source, attacks)| <= 256
      modifies list`count, list.moves
      ensures list.Valid() && rest == Rest(attacks)
      ensures list.Contents() + TargetMoves(Snapshot(), piece, source, rest) == old(list.Contents()) + TargetMoves(Snapshot(), piece, source, attacks)
    {
      ghost var before := list.Contents();
      AddTarget(list, piece, source, Lsb(attacks));
      rest := Rest(attacks);
      assert before + TargetMoves(Snapshot(), piece, source, attacks) ==
        (before + [TargetMove(Snapshot(), piece, source, Lsb(attacks))]) + TargetMoves(Snapshot(), piece, source, rest);
    }

    /** One target square: a capture when an enemy piece stands there, a quiet move otherwise. */
    method AddTarget(list: MoveList, piece: int, source: int, target: Square)
      requires Valid() && list.Valid() && 0 <= piece < 12 && 0 <= source < 64 && list.count < 256
      modifies list`count, list.moves
      ensures list.Valid() && list.Contents() == old(list.Contents()) + [TargetMove(Snapshot(), piece, source, target)]
    {
      if GetBit(occupancies[1 - side], target) {
        list.Add(Encode(source, Index(target), piece, 0, 1, 0, 0, 0));
      } else {
        list.Add(Encode(source, Index(target), piece, 0, 0, 0, 0, 0));
      }
    }

    /** The pawn block for one pawn: its pushes, its captures, its en-passant capture. */
    method AddPawnMoves(list: MoveList, piece: int, source: Square)
      requires Valid() && list.Valid() && 0 <= piece < 12
      requires list.count + |PawnMoves(Snapshot(), piece, source)| <= 256
      modifies list`count, list.moves
      ensures list.Valid() && list.Contents() == old(list.Contents()) + PawnMoves(Snapshot(), piece, source)
    {
      ghost var p, before := Snapshot(), list.Contents();
      var targets := And(PawnAttacks(side, source), occupancies[1 - side]);
      ghost var pushes, captures, passant := Pushes(p, piece, Index(source)), PawnCaptures(p, piece, Index(source), targets), EnPassant(p, piece, source);
      assert PawnMoves(p, piece, source) == pushes + captures + passant;
      AddPushes(list, piece, Index(source));
      assert Snapshot() == p;
      AddPawnCaptures(list, piece, Index(source), targets);
      assert Snapshot() == p;
      AddEnPassant(list, piece, source);
      assert Snapshot() == p;
      AppendTwice(before, pushes, captures);
      AppendTwice(before, pushes + captures, passant);
    }

    /** Four promotions in the given order. */
    method AddPromotions(list: MoveList, source: int, target: int, piece: int, pieces: seq<int>, capture: int)
      requires list.Valid() && 0 <= source < 64 && 0 <= target < 64 && 0 <= piece < 12 && IsFlag(capture)
      requires |pieces| == 4 && forall i :: 0 <= i < 4 ==> 0 <= pieces[i] < 12
      requires list.count + 4 <= 256
      modifies list`count, list.moves
      ensures list.Valid() && list.Contents() == old(list.Contents()) + Promotions(source, target, piece, pieces, capture)
    {
      list.Add(Encode(source, target, piece, pieces[0], capture, 0, 0, 0));
      list.Add(Encode(source, target, piece, pieces[1], capture, 0, 0, 0));
      list.Add(Encode(source, target, piece, pieces[2], capture, 0, 0, 0));
      list.Add(Encode(source, target, piece, pieces[3], capture, 0, 0, 0));
      PromotionsFour(source, target, piece, pieces, capture);
    }

    /** The pushes of one pawn: promotions from the last rank, otherwise the double push from
        the home rank and the single push. */
    method AddPushes(list: MoveList, piece: int, source: int)
      requires Valid() && list.Valid() && 0 <= piece < 12 && 0 <= source < 64
      requires list.count + |Pushes(Snapshot(), piece, source)| <= 256
      modifies list`count, list.moves
      ensures list.Valid() && list.Contents() == old(list.Contents()) + Pushes(Snapshot(), piece, source)
    {
      var target := if side == White then source - 8 else source + 8;
      if 0 <= target < 64 && !GetBit(occupancies[Both], SquareOf(target)) {
        if OnRank(source, LastRank(side)) {
          AddPromotions(list, source, target, piece, PushPromotions(side), 0);
        } else {
          var beyond := if side == White then target - 8 else target + 8;
          if OnRank(source, HomeRank(side)) && !GetBit(occupancies[Both], SquareOf(beyond)) {
            list.Add(Encode(source, beyond, piece, 0, 0, 1, 0, 0));
          }
          list.Add(Encode(source, target, piece, 0, 0, 0, 0, 0));
        }
      }
    }

    /** The loop over the enemy pieces a pawn attacks. */
    method AddPawnCaptures(list: MoveList, piece: int, source: int, targets: Bitboard)
      requires Valid() && list.Valid() && 0 <= piece < 12 && 0 <= source < 64
      requires list.count + |PawnCaptures(Snapshot(), piece, source, targets)| <= 256
      modifies list`count, list.moves
      ensures list.Valid() && list.Contents() == old(list.Contents()) + PawnCaptures(Snapshot(), piece, source, targets)
    {
      ghost var p := Snapshot();
      var attacks := targets;
      while attacks != 0
        invariant list.Valid()
        invariant list.Contents() + PawnCaptures(p, piece, source, attacks) == old(list.Contents()) + PawnCaptures(p, piece, source, targets)
        decreases PopCount(attacks)
      {
        attacks := NextPawnCapture(list, piece, source, attacks);
      }
    }

    /** One turn of the pawn-capture loop: four promotions from the last rank, one capture
        otherwise; then the target popped. */
    method NextPawnCapture(list: MoveList, piece: int, source: int, attacks: Bitboard) returns (rest: Bitboard)
      requires Valid() && list.Valid() && 0 <= piece < 12 && 0 <= source < 64 && attacks != 0
      requires list.count + |PawnCaptures(Snapshot(), piece, source, attacks)| <= 256
      modifies list`count, list.moves
      ensures list.Valid() && rest == Rest(attacks)
      ensures list.Contents() + PawnCaptures(Snapshot(), piece, source, rest) == old(list.Contents()) + PawnCaptures(Snapshot(), piece, source, attacks)
    {
      ghost var p, before := Snapshot(), list.Contents();
      var target := Index(Lsb(attacks));
      rest := Rest(attacks);
      ghost var first, others := PawnTakes(p, piece, source, target), PawnCaptures(p, piece, source, rest);
      assert PawnCaptures(p, piece, source, attacks) == first + others;
      if OnRank(source, LastRank(side)) {
        AddPromotions(list, source, target, piece, CapturePromotions(side), 1);
      } else {
        list.Add(Encode(source, target, piece, 0, 1, 0, 0, 0));
      }
      assert Snapshot() == p;
      AppendTwice(before, first, others);
    }

    /** The en-passant capture of one pawn. */
    method AddEnPassant(list: MoveList, piece: int, source: Square)
      requires Valid() && list.Valid() && 0 <= piece < 12
      requires list.count + |EnPassant(Snapshot(), piece, source)| <= 256
      modifies list`count, list.moves
      ensures list.Valid() && list.Contents() == old(list.Contents()) + EnPassant(Snapshot(), piece, source)
    {
      if enpassant != NoSquare {
        var attacks := And(PawnAttacks(side, source), Bit(SquareOf(enpassant)));
        if attacks != 0 {
          list.Add(Encode(Index(source), Index(Lsb(attacks)), piece, 0, 1, 0, 1, 0));
        }
      }
    }

    /** The castling block of the king: king side, then queen side. */
    method AddCastles(list: MoveList, piece: int)
      requires Valid() && Ready() && list.Valid() && 0 <= piece < 12
      requires list.count + |Castles(Snapshot(), piece)| <= 256
      modifies list`count, list.moves
      ensures list.Valid() && list.Contents() == old(list.Contents()) + Castles(Snapshot(), piece)
    {
      ghost var p, before := Snapshot(), list.Contents();
      AddKingSide(list, piece);
      AddQueenSide(list, piece);
      assert before + Castles(p, piece) == (before + KingSideCastle(p, piece)) + QueenSideCastle(p, piece);
    }

    method AddKingSide(list: MoveList, piece: int)
      requires Valid() && Ready() && list.Valid() && 0 <= piece < 12
      requires list.count + |KingSideCastle(Snapshot(), piece)| <= 256
      modifies list`count, list.moves
      ensures list.Valid() && list.Contents() == old(list.Contents()) + KingSideCastle(Snapshot(), piece)
    {
      ghost var p := Snapshot();
      var allowed := KingSideFree();
      if allowed {
        list.Add(CastleMove(side, piece, true));
      }
      assert Snapshot() == p;
    }

    /** The king-side test of generateMoves: the right is held, the two squares between king and
        rook are empty, and neither the king's square nor the one it crosses is attacked. */
    method KingSideFree() returns (allowed: bool)
      requires Valid() && Ready()
      ensures allowed == KingSideAllowed(Snapshot())
    {
      var e := KingHome(side);
      allowed := Holds(castle, if side == White then WhiteKingSide else BlackKingSide) &&
        !GetBit(occupancies[Both], SquareOf(e + 2)) && !GetBit(occupancies[Both], SquareOf(e + 1));
      if allowed {
        var attackedE := IsSquareAttacked(SquareOf(e), 1 - side);
        var attackedF := IsSquareAttacked(SquareOf(e + 1), 1 - side);
        allowed := !attackedE && !attackedF;
      }
    }

    method AddQueenSide(list: MoveList, piece: int)
      requires Valid() && Ready() && list.Valid() && 0 <= piece < 12
      requires list.count + |QueenSideCastle(Snapshot(), piece)| <= 256
      modifies list`count, list.moves
      ensures list.Valid() && list.Contents() == old(list.Contents()) + QueenSideCastle(Snapshot(), piece)
    {
      ghost var p := Snapshot();
      var allowed := QueenSideFree();
      if allowed {
        list.Add(CastleMove(side, piece, false));
      }
      assert Snapshot() == p;
    }

    /** The queen-side test: the right is held, the three squares between king and rook are
        empty, and neither the king's square nor the one it crosses is attacked. */
    method QueenSideFree() returns (allowed: bool)
      requires Valid() && Ready()
      ensures allowed == QueenSideAllowed(Snapshot())
    {
      var e := KingHome(side);
      allowed := Holds(castle, if side == White then WhiteQueenSide else BlackQueenSide) &&
        !GetBit(occupancies[Both], SquareOf(e - 1)) && !GetBit(occupancies[Both], SquareOf(e - 2)) &&
        !GetBit(occupancies[Both], SquareOf(e - 3));
      if allowed {
        var attackedE := IsSquareAttacked(SquareOf(e), 1 - side);
        var attackedD := IsSquareAttacked(SquareOf(e - 1), 1 - side);
        allowed := !attackedE && !attackedD;
      }
    }

    // ----- scoreMove and sortMoves -----

    /** scoreMove: for a capture, find the last enemy board holding the target (the white pawn
        when none does) and look the attacker and that victim up in mvv_lva; 0 otherwise. */
    method ScoreMove(m: Move) returns (score: int)
      requires Valid() && Piece(m) < 12
      ensures score == MoveScore(Snapshot(), m)
    {
      if IsCapture(m) {
        var t := SquareOf(Target(m));
        var lo := Pawn + (1 - side) * 6;
        var targetPiece := Pawn;
        for enemy := lo to King + (1 - side) * 6 + 1
          invariant targetPiece == LastHolder(bitboards, lo, enemy, t, Pawn)
        {
          if GetBit(bitboards[enemy], t) {
            targetPiece := enemy;
          }
        }
        score := MvvLva[Piece(m)][targetPiece];
      } else {
        score := 0;
      }
    }

    /** sortMoves: score every move of the list, then exchange-sort moves and scores together so
        that the list ends up a reordering of itself by non-increasing score. */
    method SortMoves(list: MoveList)
      requires Valid() && list.Valid()
      requires forall m :: m in list.Contents() ==> Piece(m) < 12
      modifies list.moves
      ensures list.Valid() && multiset(list.Contents()) == multiset(old(list.Contents()))
      ensures list.moves[list.count..] == old(list.moves[list.count..])
      ensures ByScore(Snapshot(), list.Contents())
    {
      ghost var before := list.Contents();
      var moveScores := new int[list.count];
      for count := 0 to list.count
        invariant forall k :: 0 <= k < count ==> moveScores[k] == MoveScore(Snapshot(), list.moves[k])
        modifies moveScores
      {
        assert list.moves[count] in list.Contents();
        moveScores[count] := ScoreMove(list.moves[count]);
      }
      assert list.moves[..list.count] == before;
      ExchangeSort(list.moves, moveScores, list.count, Snapshot());
      assert list.Contents() == list.moves[..list.count];
    }

    /** generateMoves followed by sortMoves, as both searches begin. */
    method SortedMoves() returns (list: MoveList)
      requires Valid() && Ready() && |GenMoves(Snapshot())| <= 256
      ensures fresh(list) && fresh(list.moves) && list.Valid()
      ensures multiset(list.Contents()) == multiset(GenMoves(Snapshot()))
      ensures forall m :: m in list.Contents() <==> m in GenMoves(Snapshot())
      ensures ByScore(Snapshot(), list.Contents())
    {
      ghost var p := Snapshot();
      list := new MoveList();
      GenerateMoves(list);
      PiecesInRange(p, list.Contents());
      SortMoves(list);
      SameMembers(list.Contents(), GenMoves(p));
    }

    // ----- perftDriver -----

    /** perftDriver: at depth 0 count one leaf; otherwise play each generated move that makeMove
        keeps, count the leaves below it one depth less and restore the saved board. */
    method PerftDriver(depth: nat)
      requires Valid() && Ready() && PerftBounded(Snapshot(), depth)
      modifies this`bitboards, this`occupancies, this`side, this`enpassant, this`castle, this`nodes
      ensures Valid() && Snapshot() == old(Snapshot())
      ensures nodes == old(nodes) + PerftCount(old(Snapshot()), depth)
      decreases depth, 4
    {
      if depth == 0 {
        nodes := nodes + 1;
      } else {
        PerftLoop(depth);
      }
    }

    /** perftDriver above the leaves: the loop over the generated moves. */
    method PerftLoop(depth: nat)
      requires Valid() && Ready() && depth > 0 && PerftBounded(Snapshot(), depth)
      modifies this`bitboards, this`occupancies, this`side, this`enpassant, this`castle, this`nodes
      ensures Valid() && Snapshot() == old(Snapshot())
      ensures nodes == old(nodes) + PerftCount(old(Snapshot()), depth)
      decreases depth, 3
    {
      ghost var p, n0 := Snapshot(), nodes;
      var list := new MoveList();
      GenerateMoves(list);
      ghost var ms := list.Contents();
      ghost var pc := PerftCounter(p, depth);
      for count := 0 to list.count
        invariant Valid() && Snapshot() == p && list.Valid() && list.Contents() == ms
        invariant nodes == n0 + Sum(ms[..count], pc)
      {
        PerftStep(list.moves[count], depth, p);
        Search.SumStep(ms, count, pc);
      }
      PerftTotal(p, depth, ms);
    }

    /** The body of perftDriver's loop for one generated move: the nodes grow by that move's count. */
    method PerftStep(m: Move, depth: nat, ghost p: Position)
      requires Valid() && Ready() && Snapshot() == p && depth > 0 && PerftBounded(p, depth) && m in GenMoves(p)
      modifies this`bitboards, this`occupancies, this`side, this`enpassant, this`castle, this`nodes
      ensures Valid() && Snapshot() == p && nodes == old(nodes) + PerftCounter(p, depth)(m)
      decreases depth, 2
    {
      PerftChild(p, depth, m);
      ghost var before := nodes;
      var made := PerftMove(m, depth, p);
      PerftCounted(p, m, depth, made, nodes - before);
    }

    /** One move of perftDriver: when makeMove keeps it, the leaves below the position it leads
        to are counted and the saved board is restored; otherwise makeMove has restored it. */
    method PerftMove(m: Move, depth: nat, ghost p: Position) returns (made: bool)
      requires Valid() && Ready() && Snapshot() == p && depth > 0 && Playable(p, m)
      requires Kept(p, m, false) ==> PerftBounded(Apply(p, m), depth - 1)
      modifies this`bitboards, this`occupancies, this`side, this`enpassant, this`castle, this`nodes
      ensures Valid() && Snapshot() == p && made == Kept(p, m, false)
      ensures made ==> nodes == old(nodes) + PerftCount(Apply(p, m), depth - 1)
      ensures !made ==> nodes == old(nodes)
      decreases depth, 1
    {
      var copy := Snapshot();
      made := MakeAll(m, p);
      if !made {
        return;
      }
      PerftBelow(copy, Apply(p, m), depth - 1);
    }

    /** makeMove(move, allMoves) as perftDriver calls it, stated for the position p it starts from. */
    method MakeAll(m: Move, ghost p: Position) returns (made: bool)
      requires Valid() && Ready() && Snapshot() == p && Playable(p, m)
      modifies this`bitboards, this`occupancies, this`side, this`enpassant, this`castle
      ensures Valid() && made == Kept(p, m, false)
      ensures Snapshot() == if made then Apply(p, m) else p
      ensures nodes == old(nodes)
    {
      made := MakeMove(m, AllMoves);
    }

    /** The recursive call of perftDriver on the position a kept move led to, and the restore of
        the board saved before the move. */
    method PerftBelow(copy: Position, ghost child: Position, depth: nat)
      requires Valid() && Ready() && Snapshot() == child && State.Valid(copy) && PerftBounded(child, depth)
      modifies this`bitboards, this`occupancies, this`side, this`enpassant, this`castle, this`nodes
      ensures Valid() && Snapshot() == copy
      ensures nodes == old(nodes) + PerftCount(child, depth)
      decreases depth, 5
    {
      PerftDriver(depth);
      Restore(copy);
    }

    // ----- quiescenceSearch -----

    /** quiescenceSearch: stand pat on the evaluation, then try the kept captures in sorted
        order with the window negated, failing hard at beta. The result is the quiescence value
        cut to the window; the board and ply are as they were. */
    method Quiescence(alpha: int, beta: int, ghost fuel: nat) returns (r: int)
      requires Valid() && Ready() && QBounded(Snapshot(), fuel) && alpha < beta
      modifies this`bitboards, this`occupancies, this`side, this`enpassant, this`castle, this`ply, this`nodes
      ensures Valid() && Snapshot() == old(Snapshot()) && ply == old(ply) && nodes > old(nodes)
      ensures r == Clamp(QValue(old(Snapshot()), fuel), alpha, beta)
      decreases fuel, 3
    {
      ghost var p := Snapshot();
      var evaluation := Evaluate();
      nodes := nodes + 1;
      if evaluation >= beta {
        StandPatCut(p, fuel, evaluation, alpha, beta);
        return beta;
      }
      var start := if evaluation > alpha then evaluation else alpha;
      var list := SortedMoves();
      var cut, a := QuiescenceLoop(list, start, beta, fuel);
      if cut {
        ClampHigh(QValue(p, fuel), alpha, beta);
        return beta;
      }
      QuiescenceWindow(p, fuel, list.Contents(), evaluation, alpha, beta, start, a);
      r := a;
    }

    /** The move loop of quiescenceSearch over a sorted list, from the running alpha start: it
        stops with a cut as soon as a capture scores beta or more, and otherwise ends on the best
        of start and the captures' scores. */
    method QuiescenceLoop(list: MoveList, start: int, beta: int, ghost fuel: nat) returns (cut: bool, a: int)
      requires Valid() && Ready() && QBounded(Snapshot(), fuel) && list.Valid() && start < beta
      requires forall m :: m in list.Contents() ==> m in GenMoves(Snapshot())
      modifies this`bitboards, this`occupancies, this`side, this`enpassant, this`castle, this`ply, this`nodes
      ensures Valid() && Snapshot() == old(Snapshot()) && ply == old(ply) && nodes >= old(nodes)
      ensures cut ==> QValue(old(Snapshot()), fuel) >= beta
      ensures !cut ==> a < beta && a == Best(start, Concat(list.Contents(), QScorer(old(Snapshot()), fuel)))
      decreases fuel, 2
    {
      ghost var p := Snapshot();
      ghost var ms := list.Contents();
      ghost var qs := QScorer(p, fuel);
      a := start;
      for count := 0 to list.count
        invariant Valid() && Snapshot() == p && ply == old(ply) && nodes >= old(nodes)
        invariant a < beta && a == Best(start, Concat(ms[..count], qs))
      {
        QuiescenceChild(p, fuel, ms[count]);
        var raised;
        cut, raised := QuiescenceMove(list.moves[count], a, beta, fuel);
        if cut {
          QuiescenceCut(p, fuel, ms[count], a, beta, raised);
          return;
        }
        WindowStep(start, ms, count, qs, a, beta, cut, raised);
        a := raised;
      }
      assert ms[..|ms|] == ms;
      cut := false;
    }

    /** One move of the quiescence loop: search the reply to it as a capture with the window
        negated. It cuts when its score reaches beta, and otherwise raises alpha to its score
        when that is higher. */
    method QuiescenceMove(m: Move, a: int, beta: int, ghost fuel: nat) returns (cut: bool, raised: int)
      requires Valid() && Ready() && Playable(Snapshot(), m) && fuel > 0 && a < beta
      requires Kept(Snapshot(), m, true) ==> QBounded(Apply(Snapshot(), m), fuel - 1)
      modifies this`bitboards, this`occupancies, this`side, this`enpassant, this`castle, this`ply, this`nodes
      ensures Valid() && Snapshot() == old(Snapshot()) && ply == old(ply) && nodes >= old(nodes)
      ensures LoopStep(QScorer(old(Snapshot()), fuel)(m), a, beta, cut, raised)
      decreases fuel, 1
    {
      ghost var p := Snapshot();
      var lo, hi := -beta, -a;
      var made, reply := QuiescenceReplyTo(m, lo, hi, fuel);
      if !made {
        QuiescenceSkip(p, m, fuel, a, beta);
        return false, a;
      }
      QuiescenceReply(p, m, fuel, Apply(p, m), a, beta, lo, hi, reply);
      cut, raised := Decide(reply, a, beta).0, Decide(reply, a, beta).1;
    }

    /** Play a move as a capture and, when makeMove keeps it, search the reply in the window
        [lo, hi] one ply deeper and take the move back. */
    method QuiescenceReplyTo(m: Move, lo: int, hi: int, ghost fuel: nat) returns (made: bool, reply: int)
      requires Valid() && Ready() && Playable(Snapshot(), m) && fuel > 0 && lo < hi
      requires Kept(Snapshot(), m, true) ==> QBounded(Apply(Snapshot(), m), fuel - 1)
      modifies this`bitboards, this`occupancies, this`side, this`enpassant, this`castle, this`ply, this`nodes
      ensures Valid() && Snapshot() == old(Snapshot()) && ply == old(ply) && nodes >= old(nodes)
      ensures made == Kept(old(Snapshot()), m, true)
      ensures made ==> reply == Clamp(QValue(Apply(old(Snapshot()), m), fuel - 1), lo, hi)
      decreases fuel, 0
    {
      var copy := Snapshot();
      made := TryMove(m, OnlyCaptures, copy);
      if made {
        reply := Quiescence(lo, hi, fuel - 1);
        TakeBack(copy);
      } else {
        reply := 0;
      }
    }

    // ----- negamax -----

    /** The in-check test of negamax: is the king of the side to move attacked by the other
        side? A board without that king is not in check. */
    method KingInCheck() returns (inCheck: bool)
      requires Valid() && Ready()
      ensures inCheck == InCheck(Snapshot())
    {
      var king := if side == White then bitboards[BoardOf(White, King)] else bitboards[BoardOf(Black, King)];
      inCheck := false;
      if king != 0 {
        inCheck := IsSquareAttacked(Lsb(king), 1 - side);
      }
    }

    /** negamax: at depth 0 the quiescence search; otherwise one more ply when in check, the
        legal moves in sorted order searched with the window negated, failing hard at beta, and
        the mate or stalemate score when no move is legal. At the root, a result strictly inside
        the window of a position with a legal move is the score of bestMove, a kept move. */
    method Negamax(alpha: int, beta: int, depth: int, ghost fuel: nat) returns (r: int)
      requires Valid() && Ready() && NBounded(Snapshot(), depth, fuel) && alpha < beta && ply >= 0
      modifies this`bitboards, this`occupancies, this`side, this`enpassant, this`castle, this`ply, this`nodes,
        this`bestMove
      ensures Valid() && Snapshot() == old(Snapshot()) && ply == old(ply) && nodes > old(nodes)
      ensures SearchResult(old(Snapshot()), depth, old(ply), fuel, alpha, beta, r, bestMove)
      ensures old(ply) != 0 ==> bestMove == old(bestMove)
      decreases fuel, 6
    {
      if depth == 0 {
        NegamaxLeaf(Snapshot(), ply, fuel, alpha, beta, bestMove);
        r := Quiescence(alpha, beta, fuel);
      } else {
        r := NegamaxNode(alpha, beta, depth, fuel);
      }
    }

    /** negamax away from depth 0. */
    method NegamaxNode(alpha: int, beta: int, depth: int, ghost fuel: nat) returns (r: int)
      requires Valid() && Ready() && NBounded(Snapshot(), depth, fuel) && depth != 0 && alpha < beta && ply >= 0
      modifies this`bitboards, this`occupancies, this`side, this`enpassant, this`castle, this`ply, this`nodes,
        this`bestMove
      ensures Valid() && Snapshot() == old(Snapshot()) && ply == old(ply) && nodes > old(nodes)
      ensures SearchResult(old(Snapshot()), depth, old(ply), fuel, alpha, beta, r, bestMove)
      ensures old(ply) != 0 ==> bestMove == old(bestMove)
      decreases fuel, 5
    {
      ghost var p, ply0 := Snapshot(), ply;
      nodes := nodes + 1;
      var raised, bestSoFar;
      r, raised, bestSoFar := NegamaxMoves(alpha, beta, depth, fuel);
      bestMove := StoreAtRoot(ply, raised, bestSoFar, bestMove);
      NodeResult(p, depth, ply0, fuel, alpha, beta, r, raised, bestSoFar, bestMove);
    }

    /** The moves of a negamax node: the in-check test, then the moves generated and sorted and
        searched one ply deeper when in check, and the node's value from what the loop found.
        raised says whether alpha was raised, and bestSoFar is then the root's best move. */
    method NegamaxMoves(alpha: int, beta: int, depth: int, ghost fuel: nat)
      returns (r: int, raised: bool, bestSoFar: Move)
      requires Valid() && Ready() && NBounded(Snapshot(), depth, fuel) && depth != 0 && alpha < beta && ply >= 0
      modifies this`bitboards, this`occupancies, this`side, this`enpassant, this`castle, this`ply, this`nodes,
        this`bestMove
      ensures Valid() && Snapshot() == old(Snapshot()) && ply == old(ply) && nodes >= old(nodes)
      ensures bestMove == old(bestMove) && fuel > 0
      ensures NodeFound(old(Snapshot()), depth, old(ply), fuel, alpha, beta, r, raised, bestSoFar)
      decreases fuel, 4
    {
      ghost var p, ply0 := Snapshot(), ply;
      var inCheck := KingInCheck();
      var searchDepth := if inCheck then depth + 1 else depth;
      var childDepth := searchDepth - 1;
      ExtendedDepth(p, depth, inCheck, childDepth);
      var list := SortedMoves();
      ghost var ms := list.Contents();
      var cut, legalMoves, a;
      cut, legalMoves, a, bestSoFar := NegamaxLoop(list, alpha, beta, childDepth, depth, fuel);
      raised := !cut && legalMoves != 0 && a != alpha;
      r := if cut then beta else if legalMoves == 0 then (if inCheck then MateScore + ply else 0) else a;
      NegamaxOutcome(p, depth, ply0, fuel, ms, alpha, beta, inCheck, cut, legalMoves, a, bestSoFar, raised, r);
    }

    /** The move loop of negamax over a sorted list, children searched at depth d: it stops with
        a cut as soon as a move scores beta or more, and otherwise ends with the count of legal
        moves, the best of alpha and their scores, and (at the root) the move that raised alpha
        last. */
    method NegamaxLoop(list: MoveList, alpha: int, beta: int, d: int, ghost depth: int, ghost fuel: nat)
      returns (cut: bool, legalMoves: int, a: int, bestSoFar: Move)
      requires Valid() && Ready() && NBounded(Snapshot(), depth, fuel) && depth != 0 && list.Valid()
      requires d == ChildDepth(Snapshot(), depth) && alpha < beta && ply >= 0
      requires forall m :: m in list.Contents() ==> m in GenMoves(Snapshot())
      modifies this`bitboards, this`occupancies, this`side, this`enpassant, this`castle, this`ply, this`nodes,
        this`bestMove
      ensures Valid() && Snapshot() == old(Snapshot()) && ply == old(ply) && nodes >= old(nodes)
      ensures bestMove == old(bestMove) && fuel > 0
      ensures LoopFound(old(Snapshot()), depth, old(ply), fuel, list.Contents(), alpha, beta, cut, legalMoves, a)
      ensures !cut && old(ply) == 0 && a != alpha ==> RootBest(old(Snapshot()), depth, fuel, bestSoFar, a)
      decreases fuel, 3
    {
      ghost var p, ply0 := Snapshot(), ply;
      ghost var ms := list.Contents();
      ghost var ns := NScorer(p, d, ply0, fuel);
      a, legalMoves, bestSoFar := alpha, 0, 0;
      for count := 0 to list.count
        invariant Valid() && Snapshot() == p && ply == old(ply) && nodes >= old(nodes)
        invariant bestMove == old(bestMove)
        invariant legalMoves == |KeptMoves(p, ms[..count], false)|
        invariant a < beta && a == Best(alpha, Concat(ms[..count], ns))
        invariant ply0 == 0 && a != alpha ==> RootBest(p, depth, fuel, bestSoFar, a)
      {
        var m := list.moves[count];
        assert m == ms[count];
        NegamaxChild(p, depth, fuel, m);
        var made, raised;
        made, cut, raised := NegamaxMove(m, a, beta, d, ply0, fuel);
        KeptCount(p, ms, count, legalMoves, made);
        if made {
          legalMoves := legalMoves + 1;
        }
        if cut {
          NegamaxCut(p, depth, ply0, fuel, m, a, beta, raised, ms, alpha, legalMoves);
          return;
        }
        if raised != a && ply == 0 {
          NegamaxRaise(p, depth, ply0, fuel, m, a, beta, raised);
          bestSoFar := m;
        }
        WindowStep(alpha, ms, count, ns, a, beta, cut, raised);
        a := raised;
      }
      NegamaxDone(p, depth, ply0, fuel, ms, alpha, beta, legalMoves, a);
      cut := false;
    }

    /** One move of the negamax loop: search the reply to it with the window negated, at depth
        d. It tells whether makeMove kept the move; it cuts when the score reaches beta, and
        otherwise raises alpha to the score when that is higher. */
    method NegamaxMove(m: Move, a: int, beta: int, d: int, ghost ply0: int, ghost fuel: nat) returns (made: bool, cut: bool, raised: int)
      requires Valid() && Ready() && Playable(Snapshot(), m) && fuel > 0 && a < beta && ply == ply0 >= 0
      requires Kept(Snapshot(), m, false) ==> NBounded(Apply(Snapshot(), m), d, fuel - 1)
      modifies this`bitboards, this`occupancies, this`side, this`enpassant, this`castle, this`ply, this`nodes,
        this`bestMove
      ensures Valid() && Snapshot() == old(Snapshot()) && ply == old(ply) && nodes >= old(nodes)
      ensures bestMove == old(bestMove)
      ensures made == Kept(old(Snapshot()), m, false)
      ensures LoopStep(NScorer(old(Snapshot()), d, ply0, fuel)(m), a, beta, cut, raised)
      decreases fuel, 1
    {
      ghost var p := Snapshot();
      var lo, hi := -beta, -a;
      var reply;
      made, reply := NegamaxReplyTo(m, lo, hi, d, p, ply0, fuel);
      if !made {
        NegamaxSkip(p, m, d, ply0, fuel, a, beta);
        return false, false, a;
      }
      NegamaxReply(p, m, d, ply0, fuel, a, beta, lo, hi, reply);
      cut, raised := Decide(reply, a, beta).0, Decide(reply, a, beta).1;
    }

    /** Play a move and, when makeMove keeps it, search the reply in the window [lo, hi] at
        depth d one ply deeper and take the move back. */
    method NegamaxReplyTo(m: Move, lo: int, hi: int, d: int, ghost p: Position, ghost ply0: int, ghost fuel: nat)
      returns (made: bool, reply: int)
      requires Valid() && Ready() && Snapshot() == p && ply == ply0 >= 0
      requires Playable(p, m) && fuel > 0 && lo < hi
      requires Kept(p, m, false) ==> NBounded(Apply(p, m), d, fuel - 1)
      modifies this`bitboards, this`occupancies, this`side, this`enpassant, this`castle, this`ply, this`nodes,
        this`bestMove
      ensures Valid() && Snapshot() == p && ply == ply0 && nodes >= old(nodes)
      ensures bestMove == old(bestMove)
      ensures made == Kept(p, m, false)
      ensures made ==> reply == SearchValue(Apply(p, m), d, ply0 + 1, fuel - 1, lo, hi)
      decreases fuel, 0
    {
      var copy := Snapshot();
      made := TryMove(m, AllMoves, p);
      if made {
        reply := SearchChild(lo, hi, d, copy, Apply(p, m), ply0 + 1, fuel - 1);
      } else {
        reply := 0;
      }
    }

    /** The child's search once makeMove has played a move, and the take-back to `copy`. */
    method SearchChild(lo: int, hi: int, d: int, copy: Position, ghost child: Position, ghost ply1: int,
      ghost fuel: nat)
      returns (reply: int)
      requires Valid() && Ready() && Snapshot() == child && ply == ply1 > 0 && State.Valid(copy)
      requires NBounded(child, d, fuel) && lo < hi
      modifies this`bitboards, this`occupancies, this`side, this`enpassant, this`castle, this`ply, this`nodes,
        this`bestMove
      ensures Valid() && Snapshot() == copy && ply == ply1 - 1 && nodes >= old(nodes)
      ensures bestMove == old(bestMove)
      ensures reply == SearchValue(child, d, ply1, fuel, lo, hi)
      decreases fuel, 7
    {
      reply := Negamax(lo, hi, d, fuel);
      ResultValue(child, d, ply1, fuel, lo, hi, reply, bestMove);
      TakeBack(copy);
    }

    /** The opening of every move of the search loops: one ply deeper, make the move, and one
        ply back when makeMove refuses it. */
    method TryMove(m: Move, flag: int, ghost p: Position) returns (made: bool)
      requires Valid() && Ready() && Snapshot() == p && Playable(p, m)
      modifies this`bitboards, this`occupancies, this`side, this`enpassant, this`castle, this`ply
      ensures Valid() && made == Kept(p, m, flag != AllMoves)
      ensures Snapshot() == if made then Apply(p, m) else p
      ensures ply == if made then old(ply) + 1 else old(ply)
      ensures nodes == old(nodes) && bestMove == old(bestMove)
    {
      ply := ply + 1;
      made := MakeMove(m, flag);
      if !made {
        ply := ply - 1;
      }
    }

    /** The close of a searched move: one ply back and the saved board restored. */
    method TakeBack(copy: Position)
      requires Valid() && State.Valid(copy)
      modifies this`bitboards, this`occupancies, this`side, this`enpassant, this`castle, this`ply
      ensures Valid() && Snapshot() == copy && ply == old(ply) - 1
      ensures nodes == old(nodes) && bestMove == old(bestMove)
    {
      ply := ply - 1;
      Restore(copy);
    }
  }
}
