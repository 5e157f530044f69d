/** The Python prototype's Board object (Board.py): the dictionaries, the attack list, the move
    log and the turn are fields the methods reassign, and the pieces are Piece objects the methods
    move in place. Every method is proved against the function of ProtoRules or ProtoLegal that
    gives the board it leaves, read off the fields and the piece objects by Snapshot. */
module ProtoBoard {
  import opened ProtoGrid
  import opened ProtoPieces
  import opened ProtoRules
  import opened ProtoLegal

  class Board {
    var pieces: seq<Entry>
    var capturedPieces: seq<Entry>
    var attackedSquares: seq<Square>
    var moveLog: map<int, LogEntry>
    var turn: int
    /** The piece objects the board was set up with; no method creates one. */
    const objs: set<Piece>

    /** The fields of every piece object. */
    function St(): map<Piece, PieceState>
      reads objs
    {
      map p | p in objs :: p.State()
    }

    /** The board as a value. */
    function Snapshot(): Model
      reads this, objs
    {
      Model(pieces, capturedPieces, attackedSquares, moveLog, turn, St())
    }

    /** piece.setPosition(to, mark), seen from the board: only that piece's fields change. */
    method Place(p: Piece, to: Square, mark: bool)
      requires p in objs
      modifies p
      ensures Snapshot() == SetPos(old(Snapshot()), p, to, mark)
    {
      p.SetPosition(to, mark);
      assert St() == old(St())[p := Placed(old(p.State()), to, mark)];
    }

    /** piece.captured = True, seen from the board. */
    method MarkCaptured(v: Piece)
      requires v in objs
      modifies v
      ensures Snapshot() == Flag(old(Snapshot()), v)
    {
      v.captured := true;
      assert St() == old(St())[v := old(v.State()).(captured := true)];
    }

    /** capturedPieces[name] = v; del pieces[name]: the entry changes dictionary. */
    method Take(name: string, v: Piece)
      modifies this
      ensures Snapshot() == old(Snapshot()).(pieces := Remove(old(pieces), name), capturedPieces := Put(old(capturedPieces), name, v))
    {
      capturedPieces := Put(capturedPieces, name, v);
      pieces := Remove(pieces, name);
    }

    /** checkForPieceOnSquare (Board.py:312-317): the first entry in dictionary order whose piece
        stands on square with the asked colour (any colour when anyColor). */
    method CheckForPieceOnSquare(square: Square, color: int, anyColor: bool) returns (h: Hit)
      requires Known(Snapshot())
      ensures h == Find(Snapshot(), square, color, anyColor)
    {
      var i := 0;
      while i < |pieces|
        invariant 0 <= i <= |pieces|
        invariant forall j :: 0 <= j < i ==> !Matches(St()[pieces[j].1], square, color, anyColor)
      {
        var (name, p) := pieces[i];
        assert pieces[i] in pieces;
        if (p.color == color || anyColor) && p.position == square {
          assert Matches(St()[p], square, color, anyColor);
          return Hit(name, p);
        }
        i := i + 1;
      }
      return Miss;
    }

    /** checkCapture (Board.py:293-304): the first entry in dictionary order whose piece stands
        on the capturer's square with the other colour is flagged captured and moved from pieces
        to capturedPieces under its name, and returned. */
    method CheckCapture(capturer: Piece) returns (h: Hit)
      requires Known(Snapshot()) && capturer in objs
      modifies this, objs
      ensures (Snapshot(), h) == Capture(old(Snapshot()), capturer)
    {
      ghost var m := Snapshot();
      var i := 0;
      while i < |pieces|
        invariant 0 <= i <= |pieces|
        invariant Snapshot() == m
        invariant forall j :: 0 <= j < i ==> !Takes(m.st[capturer], m.st[pieces[j].1])
      {
        var (name, p) := pieces[i];
        assert pieces[i] in pieces;
        if capturer.position == p.position && capturer.color != p.color {
          assert TakenIndex(m.pieces, m.st, m.st[capturer]) == i;
          MarkCaptured(p);
          Take(name, p);
          assert Taken(m, capturer) == Hit(name, p);
          assert Snapshot() == Took(m, name, p);
          return Hit(name, p);
        }
        i := i + 1;
      }
      return Miss;
    }

    /** getAttackedSquares (Board.py:306-310): attackedSquares becomes the attack moves of
        color's pieces in dictionary order; nothing else changes. */
    method GetAttackedSquares(color: int)
      requires Known(Snapshot()) && Armed(Snapshot(), color)
      modifies this
      ensures Snapshot() == old(Snapshot()).(attackedSquares := AttackedFrom(old(Snapshot()), old(pieces), color))
    {
      ghost var m := Snapshot();
      attackedSquares := [];
      var i := 0;
      while i < |pieces|
        invariant 0 <= i <= |pieces|
        invariant Snapshot() == m.(attackedSquares := attackedSquares)
        invariant attackedSquares + AttackedFrom(m, pieces[i..], color) == AttackedFrom(m, pieces, color)
      {
        var p := pieces[i].1;
        assert pieces[i] in pieces;
        AttackedStep(m, pieces, i, color, attackedSquares);
        if p.color == color {
          AttackIgnoresList(m, attackedSquares, p);
          AddAttacks(p);
        }
        i := i + 1;
      }
    }

    /** attackedSquares += piece.getAttackMoves(self) (Board.py:309-310). */
    method AddAttacks(p: Piece)
      requires Known(Snapshot()) && p in objs && CanAttack(p.State())
      modifies this
      ensures Snapshot() == old(Snapshot()).(attackedSquares := old(attackedSquares) + AttackMoves(old(Snapshot()), p))
    {
      attackedSquares := attackedSquares + AttackMoves(Snapshot(), p);
    }

    /** checkKingUnderAttack (Board.py:194-204): fills attackedSquares for the other colour and
        reports whether the king's square is among them. */
    method CheckKingUnderAttack(color: int) returns (attacked: bool)
      requires Guarded(Snapshot(), color)
      modifies this
      ensures (Snapshot(), attacked) == CheckKing(old(Snapshot()), color)
    {
      ghost var m := Snapshot();
      GetAttackedSquares(1 - color);
      var king := pieces[KeyIndex(pieces, KingKey(color))].1;
      assert king == KingOf(m, color) && king in m.st;
      attacked := Attacked(king.position);
    }

    /** The scan of checkKingUnderAttack (Board.py:200-202): whether square is in
        attackedSquares. */
    method Attacked(square: Square) returns (found: bool)
      ensures found <==> square in attackedSquares
    {
      var i := 0;
      while i < |attackedSquares|
        invariant 0 <= i <= |attackedSquares|
        invariant square !in attackedSquares[..i]
      {
        if attackedSquares[i] == square {
          return true;
        }
        assert attackedSquares[..i + 1] == attackedSquares[..i] + [attackedSquares[i]];
        i := i + 1;
      }
      assert attackedSquares[..i] == attackedSquares;
      return false;
    }

    /** simulateMoveForCheck (Board.py:255-268): move the piece without marking it, take what
        it lands on, look for an attack on the king, put the taken entry back and move the piece back. */
    method SimulateMoveForCheck(p: Piece, next: Square) returns (inCheck: bool)
      requires Movable(Snapshot(), p)
      modifies this, objs
      ensures (Snapshot(), inCheck) == Probe(old(Snapshot()), p, next)
      ensures Movable(Snapshot(), p)
    {
      ghost var m := Snapshot();
      ProbeStep(m, p, next);
      var startPos := p.position;
      Place(p, next, false);
      ghost var m1 := Snapshot();
      assert m1 == SetPos(m, p, next, false);
      ProbeGuarded(m, p, next);
      var taken := CheckCapture(p);
      ghost var m2 := Snapshot();
      assert (m2, taken) == Capture(m1, p);
      assert p.color == m.st[p].color;
      inCheck := CheckKingUnderAttack(p.color);
      ghost var m3 := Snapshot();
      assert (m3, inCheck) == CheckKing(m2, m.st[p].color);
      PutBack(taken);
      Place(p, startPos, false);
    }

    /** The probe puts what it took back (Board.py:260-262): pieces[name] = piece and
        del capturedPieces[name]. */
    method PutBack(taken: Hit)
      modifies this
      ensures Snapshot() == Reinstate(old(Snapshot()), taken)
    {
      if taken.Hit? {
        pieces := Put(pieces, taken.name, taken.piece);
        capturedPieces := Remove(capturedPieces, taken.name);
      }
    }

    /** simulateCastleForCheck (Board.py:269-291): move king and rook to their castled squares
        without marking them, look for an attack on the king, move both back. */
    method SimulateCastleForCheck(king: Piece, rook: Piece, long: bool) returns (inCheck: bool)
      requires Movable(Snapshot(), king) && rook in objs && rook.color == king.color
      modifies this, objs
      ensures (Snapshot(), inCheck) == ProbeCastle(old(Snapshot()), king, rook, long)
    {
      ghost var m := Snapshot();
      var (k, q) := (king.position, rook.position);
      var (nk, nq) := CastleSquares(k, q, long);
      Place(king, nk, false);
      Place(rook, nq, false);
      CastleGuarded(m, king, rook, nk, nq);
      inCheck := CheckKingUnderAttack(king.color);
      Place(king, k, false);
      Place(rook, q, false);
    }

    /** castle (Board.py:226-235): log the castle, then move king and rook, marking both. */
    method Castle(king: Piece, rook: Piece, long: bool)
      requires king in objs && rook in objs
      modifies this, objs
      ensures Snapshot() == CastleMove(old(Snapshot()), king, rook, long)
    {
      var (nk, nq) := CastleSquares(king.position, rook.position, long);
      Log(Castled(king, long));
      Place(king, nk, true);
      Place(rook, nq, true);
    }

    /** enPassant (Board.py:237-246): the pawn lands behind the enemy pawn, marked, and the enemy
        entry is taken. */
    method EnPassant(pawn: Piece, enemy: Piece, name: string)
      requires pawn in objs && enemy in objs
      modifies this, objs
      ensures Snapshot() == EnPassantMove(old(Snapshot()), pawn, enemy, name)
    {
      var next := if pawn.color == White then (enemy.position.0 - 1, enemy.position.1)
                  else (enemy.position.0 + 1, enemy.position.1);
      ghost var m := Snapshot();
      assert next == EnPassantSquare(m, pawn, enemy);
      Place(pawn, next, true);
      ghost var m1 := Snapshot();
      MarkCaptured(enemy);
      Take(name, enemy);
      assert Took(m1, name, enemy) == Flag(m1, enemy).(pieces := Remove(m1.pieces, name), capturedPieces := Put(m1.capturedPieces, name, enemy));
    }

    /** movePiece (Board.py:206-224). */
    method MovePiece(piece: Piece, next: Square)
      requires Known(Snapshot()) && piece in objs
      modifies this, objs
      ensures Snapshot() == ProtoRules.MovePiece(old(Snapshot()), piece, next)
    {
      ghost var m := Snapshot();
      var found := CheckForPieceOnSquare(next, White, true);
      if found.Hit? {
        var d := found.piece;
        assert d in m.st;
        if d.kind == Rook && d.color == piece.color {
          Castle(piece, d, Before(d.position, piece.position));
          return;
        }
        if piece.kind == Pawn && d.kind == Pawn && d.position.0 == piece.position.0 {
          EnPassant(piece, d, found.name);
          return;
        }
      }
      OrdinaryMove(piece, next);
    }

    /** The ordinary branch of movePiece (Board.py:219-224): log the move, move the piece
        marking it, take what it lands on, count the turn. */
    method OrdinaryMove(piece: Piece, next: Square)
      requires Known(Snapshot()) && piece in objs
      modifies this, objs
      ensures Snapshot() == Ordinary(old(Snapshot()), piece, next)
    {
      Log(Moved(piece, piece.position, next));
      Place(piece, next, true);
      var _ := CheckCapture(piece);
      NextTurn();
    }

    /** moveLog[turn] = entry. */
    method Log(entry: LogEntry)
      modifies this
      ensures Snapshot() == old(Snapshot()).(moveLog := old(moveLog)[old(turn) := entry])
    {
      moveLog := moveLog[turn := entry];
    }

    /** turn += 1. */
    method NextTurn()
      modifies this
      ensures Snapshot() == old(Snapshot()).(turn := old(turn) + 1)
    {
      turn := turn + 1;
    }
  }

  /** A probe that can run leaves the next one runnable. */
  lemma ProbeStep(m: Model, p: Piece, q: Square)
    requires Movable(m, p)
    ensures Movable(Probe(m, p, q).0, p)
  {
    ProbeRestores(m, p, q);
    LayoutGuarded(m, Probe(m, p, q).0, m.st[p].color);
  }

  /** The board once v.captured is set. */
  function Flag(m: Model, v: Piece): Model
    requires v in m.st
  {
    m.(st := m.st[v := m.st[v].(captured := true)])
  }

  /** One turn of the attack scan: the squares so far, then the i-th piece's, then the rest. */
  lemma AttackedStep(m: Model, es: seq<Entry>, i: nat, color: int, acc: seq<Square>)
    requires Known(m) && i < |es|
    requires forall e :: e in es ==> e.1 in m.st && (m.st[e.1].color == color ==> CanAttack(m.st[e.1]))
    ensures var step := if m.st[es[i].1].color == color then AttackMoves(m, es[i].1) else [];
      acc + AttackedFrom(m, es[i..], color) == (acc + step) + AttackedFrom(m, es[i + 1..], color)
  {
    assert es[i..][0] == es[i] && es[i..][1..] == es[i + 1..];
  }

  /** The attack walks read the pieces and their fields, never attackedSquares. */
  lemma AttackIgnoresList(m: Model, a: seq<Square>, p: Piece)
    requires Known(m) && p in m.st && CanAttack(m.st[p])
    ensures AttackMoves(m.(attackedSquares := a), p) == AttackMoves(m, p)
  {
    var m' := m.(attackedSquares := a);
    assert forall q :: At(m', q) == At(m, q);
    forall rays: seq<seq<Square>> ensures RaysAttacks(m', rays, m.st[p].color) == RaysAttacks(m, rays, m.st[p].color) {
      RaysIgnoreList(m, a, rays, m.st[p].color);
    }
    JumpsIgnoreList(m, a, HorseyJumps(m.st[p].position, Size), m.st[p].color);
  }

  lemma RaysIgnoreList(m: Model, a: seq<Square>, rays: seq<seq<Square>>, color: int)
    requires Known(m)
    ensures RaysAttacks(m.(attackedSquares := a), rays, color) == RaysAttacks(m, rays, color)
  {
    if rays != [] {
      RayIgnoresList(m, a, rays[0], color);
      RaysIgnoreList(m, a, rays[1..], color);
    }
  }

  lemma RayIgnoresList(m: Model, a: seq<Square>, ray: seq<Square>, color: int)
    requires Known(m)
    ensures RayAttacks(m.(attackedSquares := a), ray, color) == RayAttacks(m, ray, color)
  {
    if ray != [] {
      RayIgnoresList(m, a, ray[1..], color);
    }
  }

  lemma JumpsIgnoreList(m: Model, a: seq<Square>, jumps: seq<Square>, color: int)
    requires Known(m)
    ensures JumpAttacks(m.(attackedSquares := a), jumps, color) == JumpAttacks(m, jumps, color)
  {
    if jumps != [] {
      JumpsIgnoreList(m, a, jumps[1..], color);
    }
  }
}
