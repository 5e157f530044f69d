/** The legal-move rules of the Python prototype (Pieces.py getLegalMoves and
    Board.getAllLegalMovesStart). A piece's candidate squares are those getAttackMoves walks
    (plus the pawn's pushes and en passant, and castling), and each candidate is tried with a
    probe that moves the piece, looks for an attack on its king and moves it back. The probes
    reorder the pieces dictionary and overwrite attackedSquares, so the rules thread the board
    through the probes in the order the source runs them. The rules take the probes as
    parameters; MoveProbe and CastleProbe are simulateMoveForCheck and simulateCastleForCheck. */
module ProtoLegal {
  import opened ProtoGrid
  import opened ProtoPieces
  import opened ProtoRules

  type MoveTest = (Model, Piece, Square) -> (Model, bool)
  type CastleTest = (Model, Piece, Piece, bool) -> (Model, bool)

  // ---------------------------------------------------------------------------------------
  // The two probes of Board.py

  /** simulateMoveForCheck (Board.py:255-268): the board it leaves and whether the king was
      found attacked. The source raises KeyError when the king's entry is missing; the rules
      only probe where the king test can run (MoveProbeKeeps), and a probe that cannot run counts
      as a check. */
  function MoveProbe(m: Model, p: Piece, q: Square): (Model, bool) {
    if Movable(m, p) then Probe(m, p, q) else (m, true)
  }

  /** simulateCastleForCheck (Board.py:269-291), total in the same way. */
  function CastleProbe(m: Model, king: Piece, rook: Piece, long: bool): (Model, bool) {
    if Movable(m, king) && rook in m.st && m.st[rook].color == m.st[king].color then
      ProbeCastle(m, king, rook, long)
    else (m, true)
  }

  /** Every move probe of p that can run leaves the board arranged as before, and the next
      probe can run. */
  lemma MoveProbeKeeps(p: Piece)
    ensures forall m, q :: Movable(m, p) ==>
      Arranged(m, MoveProbe(m, p, q).0) && Movable(MoveProbe(m, p, q).0, p)
  {
    forall m, q | Movable(m, p)
      ensures Arranged(m, MoveProbe(m, p, q).0) && Movable(MoveProbe(m, p, q).0, p)
    {
      ProbeRestores(m, p, q);
      LayoutGuarded(m, Probe(m, p, q).0, m.st[p].color);
    }
  }

  /** Every castle probe of king leaves the board arranged as before. */
  lemma CastleProbeKeeps(king: Piece)
    ensures forall m, rook, long :: Movable(m, king) ==>
      Arranged(m, CastleProbe(m, king, rook, long).0) && Movable(CastleProbe(m, king, rook, long).0, king)
  {
    forall m, rook, long | Movable(m, king)
      ensures Arranged(m, CastleProbe(m, king, rook, long).0) && Movable(CastleProbe(m, king, rook, long).0, king)
    {
      if rook in m.st && m.st[rook].color == m.st[king].color {
        ProbeCastleRestores(m, king, rook, long);
      }
    }
  }

  // ---------------------------------------------------------------------------------------
  // The probing loop inside every getLegalMoves

  /** Probe every candidate in order and keep the squares whose probe reports no check. */
  function ProbeAll(probe: MoveTest, m: Model, p: Piece, qs: seq<Square>): (r: (Model, seq<Square>))
    ensures Subsequence(r.1, qs)
    decreases |qs|
  {
    if qs == [] then (m, [])
    else
      var (m1, check) := probe(m, p, qs[0]);
      var (m2, rest) := ProbeAll(probe, m1, p, qs[1..]);
      if check then (m2, rest)
      else
        assert ([qs[0]] + rest)[1..] == rest;
        (m2, [qs[0]] + rest)
  }

  /** The board the probing loop holds when it reaches qs[i]. */
  function Reached(probe: MoveTest, m: Model, p: Piece, qs: seq<Square>, i: nat): Model
    requires i <= |qs|
    decreases i
  {
    if i == 0 then m else Reached(probe, probe(m, p, qs[0]).0, p, qs[1..], i - 1)
  }

  /** The loop keeps exactly the candidates whose probe, on the board the loop holds when it
      reaches them, reports no check. */
  lemma {:induction false} ProbeAllIff(probe: MoveTest, m: Model, p: Piece, qs: seq<Square>, q: Square)
    ensures q in ProbeAll(probe, m, p, qs).1 <==>
      exists i :: 0 <= i < |qs| && qs[i] == q && !probe(Reached(probe, m, p, qs, i), p, q).1
    decreases |qs|
  {
    if qs != [] {
      var m1 := probe(m, p, qs[0]).0;
      var rest := qs[1..];
      ProbeAllIff(probe, m1, p, rest, q);
      assert ProbeAll(probe, m, p, qs).1 ==
        (if probe(m, p, qs[0]).1 then [] else [qs[0]]) + ProbeAll(probe, m1, p, rest).1;
      if q in ProbeAll(probe, m, p, qs).1 {
        if q == qs[0] && !probe(m, p, q).1 {
          assert Reached(probe, m, p, qs, 0) == m;
        } else {
          var i :| 0 <= i < |rest| && rest[i] == q && !probe(Reached(probe, m1, p, rest, i), p, q).1;
          assert Reached(probe, m, p, qs, i + 1) == Reached(probe, m1, p, rest, i);
        }
      }
      if exists i :: 0 <= i < |qs| && qs[i] == q && !probe(Reached(probe, m, p, qs, i), p, q).1 {
        var i :| 0 <= i < |qs| && qs[i] == q && !probe(Reached(probe, m, p, qs, i), p, q).1;
        if i > 0 {
          assert Reached(probe, m, p, qs, i) == Reached(probe, m1, p, rest, i - 1);
          assert rest[i - 1] == q;
        }
      }
    }
  }

  /** A probe of p left board r arranged as m was, and p can be probed again. */
  predicate ProbeKept(m: Model, r: Model, p: Piece) {
    Arranged(m, r) && Movable(r, p)
  }

  lemma ProbeKeptTrans(m: Model, m1: Model, m2: Model, p: Piece)
    requires ProbeKept(m, m1, p) && ProbeKept(m1, m2, p)
    ensures ProbeKept(m, m2, p)
  {
    ArrangedTrans(m, m1, m2);
  }

  /** A probe that keeps the board arranged keeps every board the loop holds arranged. */
  lemma {:induction false} ReachedArranged(probe: MoveTest, m: Model, p: Piece, qs: seq<Square>, i: nat)
    requires forall m', q {:trigger ProbeKept(m', probe(m', p, q).0, p)} ::
      Movable(m', p) ==> ProbeKept(m', probe(m', p, q).0, p)
    requires Movable(m, p) && i <= |qs|
    ensures ProbeKept(m, Reached(probe, m, p, qs, i), p)
    decreases i
  {
    if i == 0 {
      ArrangedRefl(m);
    } else {
      var m1 := probe(m, p, qs[0]).0;
      assert ProbeKept(m, m1, p);
      ReachedArranged(probe, m1, p, qs[1..], i - 1);
      assert Reached(probe, m, p, qs, i) == Reached(probe, m1, p, qs[1..], i - 1);
      ProbeKeptTrans(m, m1, Reached(probe, m, p, qs, i), p);
    }
  }

  lemma {:induction false} ProbeAllArranged(probe: MoveTest, m: Model, p: Piece, qs: seq<Square>)
    requires forall m', q {:trigger ProbeKept(m', probe(m', p, q).0, p)} ::
      Movable(m', p) ==> ProbeKept(m', probe(m', p, q).0, p)
    requires Movable(m, p)
    ensures ProbeKept(m, ProbeAll(probe, m, p, qs).0, p)
    decreases |qs|
  {
    if qs == [] {
      ArrangedRefl(m);
    } else {
      var m1 := probe(m, p, qs[0]).0;
      assert ProbeKept(m, m1, p);
      ProbeAllArranged(probe, m1, p, qs[1..]);
      ProbeAllNext(probe, m, p, qs);
      ProbeKeptTrans(m, m1, ProbeAll(probe, m, p, qs).0, p);
    }
  }

  /** The loop goes on from the board the first probe leaves. */
  lemma ProbeAllNext(probe: MoveTest, m: Model, p: Piece, qs: seq<Square>)
    requires qs != []
    ensures ProbeAll(probe, m, p, qs).0 == ProbeAll(probe, probe(m, p, qs[0]).0, p, qs[1..]).0
  {
    var m1 := probe(m, p, qs[0]).0;
    var (m2, rest) := ProbeAll(probe, m1, p, qs[1..]);
    assert ProbeAll(probe, m, p, qs).0 == m2;
  }

  lemma ArrangedRefl(m: Model)
    requires Valid(m)
    ensures Arranged(m, m)
  {}

  /** With simulateMoveForCheck as the probe, the loop keeps exactly the candidates whose
      probe reports no check on the board it reaches them with, which holds the same pieces on
      the same squares with the same flags as the board the loop started from. */
  lemma ProbedMoves(m: Model, p: Piece, qs: seq<Square>, q: Square)
    requires Movable(m, p)
    ensures q in ProbeAll(MoveProbe, m, p, qs).1 <==>
      exists i :: 0 <= i < |qs| && qs[i] == q && !MoveProbe(Reached(MoveProbe, m, p, qs, i), p, q).1
    ensures forall i :: 0 <= i <= |qs| ==>
      Arranged(m, Reached(MoveProbe, m, p, qs, i)) && Movable(Reached(MoveProbe, m, p, qs, i), p)
  {
    ProbeAllIff(MoveProbe, m, p, qs, q);
    MoveProbeKeeps(p);
    forall i | 0 <= i <= |qs|
      ensures Arranged(m, Reached(MoveProbe, m, p, qs, i)) && Movable(Reached(MoveProbe, m, p, qs, i), p)
    {
      ReachedArranged(MoveProbe, m, p, qs, i);
    }
  }

  // ---------------------------------------------------------------------------------------
  // PiecePawn.getLegalMoves (Pieces.py:51-97)

  /** The diagonal loop's candidates: the diagonals on the board's columns holding a piece of
      the other colour. */
  function Captures(m: Model, diags: seq<Square>, color: int): (r: seq<Square>)
    requires Known(m)
    ensures forall q :: q in r <==> q in diags && 0 <= q.1 < Size && Find(m, q, 1 - color, false).Hit?
  {
    if diags == [] then []
    else if 0 <= diags[0].1 < Size && Find(m, diags[0], 1 - color, false).Hit? then
      [diags[0]] + Captures(m, diags[1..], color)
    else Captures(m, diags[1..], color)
  }

  /** The push loop's candidates: the squares ahead up to the first occupied one. */
  function Pushes(m: Model, moves: seq<Square>): (r: seq<Square>)
    requires Known(m)
    ensures |r| <= |moves| && r == moves[..|r|]
    ensures forall j :: 0 <= j < |r| ==> !Occupied(m, moves[j])
    ensures |r| < |moves| ==> Occupied(m, moves[|r|])
  {
    AtOccupied(m, if moves == [] then (0, 0) else moves[0]);
    if moves == [] || At(m, moves[0]).Hit? then []
    else
      var rest := Pushes(m, moves[1..]);
      assert forall j :: 1 <= j <= |rest| ==> moves[j] == moves[1..][j - 1];
      [moves[0]] + rest
  }

  /** One en-passant side: the neighbouring square when the first piece on it is an enemy pawn
      that has just moved two rows; it is not probed. */
  function Passant(m: Model, p: Piece, side: seq<Square>): seq<Square>
    requires Known(m) && p in m.st
  {
    if side == [] then []
    else
      AtOccupied(m, side[0]);
      match At(m, side[0])
      case Miss => []
      case Hit(_, x) =>
        var t := m.st[x];
        if t.kind == Pawn && t.color != m.st[p].color && t.canBePassanted then [side[0]] else []
  }

  /** The squares ahead a pawn may push to: straights[pos][color][0:2-hasMoved]. */
  function PushRay(s: PieceState): seq<Square>
    requires Colored(s)
  {
    var ray := StraightMoves(s.position, Size)[s.color];
    ray[..Min(|ray|, if s.hasMoved then 1 else 2)]
  }

  /** The squares a pawn probes: its captures, then its pushes. */
  function PawnCandidates(m: Model, p: Piece): seq<Square>
    requires Known(m) && p in m.st && CanAttack(m.st[p]) && m.st[p].kind == Pawn
  {
    var s := m.st[p];
    Captures(m, PawnDiagonals(s.position, s.color), s.color) + Pushes(m, PushRay(s))
  }

  /** PiecePawn.getLegalMoves without the final assignment: probe the candidates, then add the
      two en-passant sides. */
  function PawnLegal(probe: MoveTest, m: Model, p: Piece): (Model, seq<Square>)
    requires Known(m) && p in m.st && CanAttack(m.st[p]) && m.st[p].kind == Pawn
  {
    var (m1, moves) := ProbeAll(probe, m, p, PawnCandidates(m, p));
    (m1, moves + PassantSquares(m, p))
  }

  /** The forward direction of a colour: up the board (row - 1) for white. */
  function Forward(color: int): int {
    if color == White then -1 else 1
  }

  /** A pawn may push one square straight ahead, or two while it has not moved, and never off
      the board. */
  lemma PushSquares(s: PieceState)
    requires CanAttack(s) && s.kind == Pawn
    ensures var r := PushRay(s);
      && 1 <= |r| <= (if s.hasMoved then 1 else 2)
      && forall k :: 1 <= k <= |r| ==> r[k - 1] == (s.position.0 + k * Forward(s.color), s.position.1)
  {
    var ray := StraightMoves(s.position, Size)[s.color];
    ForwardRay(s.position, s.color);
    var r := PushRay(s);
    forall k | 1 <= k <= |r|
      ensures r[k - 1] == (s.position.0 + k * Forward(s.color), s.position.1)
    {
      assert r[k - 1] == ray[k - 1];
    }
  }

  /** The straight ray a pawn of color pushes along runs to the edge of the board, one row
      further ahead at each step. */
  lemma ForwardRay(pos: Square, color: int)
    requires OnGrid(pos, Size) && (color == White || color == Black)
    ensures var ray := StraightMoves(pos, Size)[color];
      && |ray| == (if color == White then pos.0 else Size - 1 - pos.0)
      && forall k :: 1 <= k <= |ray| ==> ray[k - 1] == (pos.0 + k * Forward(color), pos.1)
  {
    StraightRays(pos, Size);
    var ray := StraightMoves(pos, Size)[color];
    assert Straight[color] == (Forward(color), 0);
    ColumnRay(ray, pos, Forward(color));
  }

  /** A ray that runs along a column advances one row per square. */
  lemma ColumnRay(ray: seq<Square>, pos: Square, dy: int)
    requires Outward(ray, pos, (dy, 0), Size)
    ensures forall k :: 1 <= k <= |ray| ==> ray[k - 1] == (pos.0 + k * dy, pos.1)
  {
    forall k | 1 <= k <= |ray|
      ensures ray[k - 1] == (pos.0 + k * dy, pos.1)
    {
      assert ray[k - 1] == (pos.0 + k * dy, pos.1 + k * 0);
    }
  }

  /** An en-passant square holds an enemy pawn that may be taken in passing. */
  predicate PassantTarget(m: Model, q: Square, color: int)
    requires Known(m)
  {
    exists e :: e in m.pieces && m.st[e.1].position == q && m.st[e.1].kind == Pawn && m.st[e.1].color != color
      && m.st[e.1].canBePassanted
  }

  /** An en-passant side yields at most its first square, and only when an enemy pawn that may
      be taken in passing stands there. */
  lemma PassantSound(m: Model, p: Piece, side: seq<Square>, q: Square)
    requires Known(m) && p in m.st
    ensures q in Passant(m, p, side) ==> side != [] && q == side[0] && PassantTarget(m, q, m.st[p].color)
  {
    if side != [] && q in Passant(m, p, side) {
      AtOccupied(m, side[0]);
      assert (At(m, q).name, At(m, q).piece) in m.pieces;
    }
  }

  /** A pawn's capture candidates are the squares one row ahead and one column aside, on the
      board, holding a piece of the other colour. */
  lemma CaptureSquares(m: Model, p: Piece, q: Square)
    requires Known(m) && p in m.st && CanAttack(m.st[p]) && m.st[p].kind == Pawn
    ensures var s := m.st[p];
      q in Captures(m, PawnDiagonals(s.position, s.color), s.color) ==>
        q.0 == s.position.0 + Forward(s.color) && Abs(q.1 - s.position.1) == 1 && 0 <= q.1 < Size
        && Find(m, q, 1 - s.color, false).Hit?
  {
    var s := m.st[p];
    if q in Captures(m, PawnDiagonals(s.position, s.color), s.color) {
      PawnAttackSquares(s.position, s.color);
      assert q in PawnAttacks(s.position, s.color);
    }
  }

  /** The k squares straight ahead of a pawn of color on pos are empty. */
  predicate AheadEmpty(m: Model, pos: Square, color: int, k: int)
    requires Known(m)
  {
    forall j :: 1 <= j <= k ==> !Occupied(m, (pos.0 + j * Forward(color), pos.1))
  }

  /** A pawn's push candidates are the empty squares straight ahead up to the first occupied
      one, at most two for an unmoved pawn and one otherwise. */
  lemma PushShape(m: Model, p: Piece, q: Square)
    requires Known(m) && p in m.st && CanAttack(m.st[p]) && m.st[p].kind == Pawn
    ensures var s := m.st[p];
      q in Pushes(m, PushRay(s)) ==>
        && q.1 == s.position.1
        && exists k :: 1 <= k <= (if s.hasMoved then 1 else 2)
             && q.0 == s.position.0 + k * Forward(s.color) && AheadEmpty(m, s.position, s.color, k)
  {
    var s := m.st[p];
    var pushes := Pushes(m, PushRay(s));
    if q in pushes {
      var k :| 0 <= k < |pushes| && pushes[k] == q;
      PushAhead(m, s, k);
      assert 1 <= k + 1 <= (if s.hasMoved then 1 else 2);
    }
  }

  /** The push at index k is k + 1 rows ahead, with every square up to it empty. */
  lemma PushAhead(m: Model, s: PieceState, k: int)
    requires Known(m) && CanAttack(s) && s.kind == Pawn && 0 <= k < |Pushes(m, PushRay(s))|
    ensures Pushes(m, PushRay(s))[k] == (s.position.0 + (k + 1) * Forward(s.color), s.position.1)
    ensures AheadEmpty(m, s.position, s.color, k + 1)
    ensures k + 1 <= (if s.hasMoved then 1 else 2)
  {
    var (pos, f) := (s.position, Forward(s.color));
    var ray := PushRay(s);
    PushSquares(s);
    var w := k + 1;
    assert Pushes(m, ray)[k] == ray[w - 1];
    forall j | 1 <= j <= w
      ensures !Occupied(m, (pos.0 + j * f, pos.1))
    {
      assert !Occupied(m, ray[j - 1]);
    }
  }

  /** The en-passant squares of a pawn: both sides of it on its row. */
  function PassantSquares(m: Model, p: Piece): seq<Square>
    requires Known(m) && p in m.st && CanAttack(m.st[p])
  {
    var sides := StraightMoves(m.st[p].position, Size);
    Passant(m, p, sides[2]) + Passant(m, p, sides[3])
  }

  /** A pawn may take in passing only the square beside it on its row of an enemy pawn that
      may be taken in passing. */
  lemma PassantShape(m: Model, p: Piece, q: Square)
    requires Known(m) && p in m.st && CanAttack(m.st[p])
    ensures var s := m.st[p];
      q in PassantSquares(m, p) ==>
        q.0 == s.position.0 && Abs(q.1 - s.position.1) == 1 && PassantTarget(m, q, s.color)
  {
    var pos := m.st[p].position;
    var sides := StraightMoves(pos, Size);
    PassantSound(m, p, sides[2], q);
    PassantSound(m, p, sides[3], q);
    if q in PassantSquares(m, p) {
      StraightRays(pos, Size);
      if q in Passant(m, p, sides[2]) {
        assert Outward(sides[2], pos, Straight[2], Size);
        assert q == sides[2][0] == (pos.0, pos.1 - 1);
      } else {
        assert Outward(sides[3], pos, Straight[3], Size);
        assert q == sides[3][0] == (pos.0, pos.1 + 1);
      }
    }
  }

  /** A pawn may move exactly to the candidates whose probe, on the board the loop reaches
      them with, reports no check, and to its en-passant squares, which are not probed. */
  lemma PawnLegalShape(probe: MoveTest, m: Model, p: Piece, q: Square)
    requires Known(m) && p in m.st && CanAttack(m.st[p]) && m.st[p].kind == Pawn
    ensures var c := PawnCandidates(m, p);
      q in PawnLegal(probe, m, p).1 <==>
        || (exists i :: 0 <= i < |c| && c[i] == q && !probe(Reached(probe, m, p, c, i), p, q).1)
        || q in PassantSquares(m, p)
  {
    var c := PawnCandidates(m, p);
    ProbeAllIff(probe, m, p, c, q);
    assert PawnLegal(probe, m, p).1 == ProbeAll(probe, m, p, c).1 + PassantSquares(m, p);
  }

  // ---------------------------------------------------------------------------------------
  // PieceKing.getLegalMoves (Pieces.py:270-316)

  /** One castling scan over the squares beside the king from x to last: an empty square
      continues it, and the first occupied one ends it, answering that square's piece when it
      is the last square and holds an unmoved rook of the king's colour. */
  function CastleRook(m: Model, king: Piece, x: int, last: int, sign: int): Hit
    requires Known(m) && king in m.st
    decreases last - x
  {
    if x > last then Miss
    else
      var pos := m.st[king].position;
      var q := (pos.0, pos.1 + sign * x);
      AtOccupied(m, q);
      match At(m, q)
      case Miss => CastleRook(m, king, x + 1, last, sign)
      case Hit(_, rook) =>
        var t := m.st[rook];
        if t.kind == Rook && t.color == m.st[king].color && !t.hasMoved && x == last then At(m, q) else Miss
  }

  /** A castling scan finds an entry of the dictionary holding an unmoved rook of the king's
      colour on the last square, with every square before it from x on empty. */
  lemma {:induction false} CastleRookSound(m: Model, king: Piece, x: int, last: int, sign: int)
    requires Known(m) && king in m.st
    ensures var (pos, r) := (m.st[king].position, CastleRook(m, king, x, last, sign));
      r.Hit? ==>
        && (r.name, r.piece) in m.pieces
        && m.st[r.piece].position == (pos.0, pos.1 + sign * last)
        && m.st[r.piece].kind == Rook && m.st[r.piece].color == m.st[king].color && !m.st[r.piece].hasMoved
        && forall j :: x <= j < last ==> !Occupied(m, (pos.0, pos.1 + sign * j))
    decreases last - x
  {
    if x <= last {
      var pos := m.st[king].position;
      AtOccupied(m, (pos.0, pos.1 + sign * x));
      CastleRookSound(m, king, x + 1, last, sign);
    }
  }

  /** One castle probe: when the scan found a rook, probe castling with it and keep the
      king's target square q if the probe reports no check. */
  function Castling(castle: CastleTest, m: Model, king: Piece, found: Hit, q: Square, long: bool): (Model, seq<Square>) {
    match found
    case Miss => (m, [])
    case Hit(_, rook) =>
      var (m1, check) := castle(m, king, rook, long);
      (m1, if check then [] else [q])
  }

  /** The square four to the left (long) or three to the right (short) of a king. */
  function CastleTarget(pos: Square, long: bool): Square {
    if long then (pos.0, pos.1 - 4) else (pos.0, pos.1 + 3)
  }

  /** PieceKing.getLegalMoves without the final assignment: probe the attack squares (the
      diagonal heads, then the straight heads), then, while the king has not moved, scan for
      long castling to the left and short castling to the right. */
  function KingLegal(probe: MoveTest, castle: CastleTest, m: Model, p: Piece): (Model, seq<Square>)
    requires Known(m) && p in m.st && CanAttack(m.st[p]) && m.st[p].kind == King
  {
    var s := m.st[p];
    var (m1, moves) := ProbeAll(probe, m, p, AttackMoves(m, p));
    if s.hasMoved then (m1, moves)
    else
      var (m2, left) := Castling(castle, m1, p, CastleRook(m, p, 1, 4, -1), CastleTarget(s.position, true), true);
      var (m3, right) := Castling(castle, m2, p, CastleRook(m, p, 1, 3, 1), CastleTarget(s.position, false), false);
      (m3, moves + left + right)
  }

  /** A castle probe yields at most the king's target square, when the scan found a rook and
      the probe with that rook reports no check. */
  lemma CastlingSound(castle: CastleTest, m: Model, king: Piece, found: Hit, q: Square, long: bool, q': Square)
    ensures q' in Castling(castle, m, king, found, q, long).1 ==>
      found.Hit? && q' == q && !castle(m, king, found.piece, long).1
  {}

  /** The castle squares of an unmoved king: the target holds an unmoved rook of the king's
      colour and every square between them is empty. */
  predicate CastleReady(m: Model, p: Piece, found: Hit, long: bool)
    requires Known(m) && p in m.st
  {
    var (s, n) := (m.st[p], if long then 4 else 3);
    var sign := if long then -1 else 1;
    && found.Hit? && found.piece in m.st
    && m.st[found.piece].position == CastleTarget(s.position, long)
    && m.st[found.piece].kind == Rook && !m.st[found.piece].hasMoved && m.st[found.piece].color == s.color
    && forall j :: 1 <= j < n ==> !Occupied(m, (s.position.0, s.position.1 + sign * j))
  }

  lemma CastleScanReady(m: Model, p: Piece, long: bool)
    requires Known(m) && p in m.st
    ensures var found := if long then CastleRook(m, p, 1, 4, -1) else CastleRook(m, p, 1, 3, 1);
      found.Hit? ==> CastleReady(m, p, found, long)
  {
    if long {
      CastleRookSound(m, p, 1, 4, -1);
    } else {
      CastleRookSound(m, p, 1, 3, 1);
    }
  }

  /** A king may move exactly to the attack squares whose probe, on the board the loop reaches
      them with, reports no check, and, when it has not moved, to the square four to the left
      when the scan found a rook there and the long-castle probe on the board the move probes
      left reports no check, and to the square three to the right when the scan found a rook
      there and the short-castle probe on the board the long-castle probe left reports no
      check. */
  lemma KingLegalShape(probe: MoveTest, castle: CastleTest, m: Model, p: Piece, q: Square)
    requires Known(m) && p in m.st && CanAttack(m.st[p]) && m.st[p].kind == King
    ensures var (s, a) := (m.st[p], AttackMoves(m, p));
      var (left, right) := (CastleRook(m, p, 1, 4, -1), CastleRook(m, p, 1, 3, 1));
      var m1 := ProbeAll(probe, m, p, a).0;
      var m2 := Castling(castle, m1, p, left, CastleTarget(s.position, true), true).0;
      q in KingLegal(probe, castle, m, p).1 <==>
        || (exists i :: 0 <= i < |a| && a[i] == q && !probe(Reached(probe, m, p, a, i), p, q).1)
        || (!s.hasMoved && left.Hit? && q == CastleTarget(s.position, true) && !castle(m1, p, left.piece, true).1)
        || (!s.hasMoved && right.Hit? && q == CastleTarget(s.position, false) && !castle(m2, p, right.piece, false).1)
  {
    ProbeAllIff(probe, m, p, AttackMoves(m, p), q);
  }

  /** Every legal king move is a neighbouring square on the board without a piece of its own
      colour found first, or, for a king that has not moved, the square four to the left or
      three to the right holding an unmoved rook of its colour with only empty squares between
      them. */
  lemma KingLegalSquares(probe: MoveTest, castle: CastleTest, m: Model, p: Piece, q: Square)
    requires Known(m) && p in m.st && CanAttack(m.st[p]) && m.st[p].kind == King
    ensures var s := m.st[p];
      var (left, right) := (CastleRook(m, p, 1, 4, -1), CastleRook(m, p, 1, 3, 1));
      q in KingLegal(probe, castle, m, p).1 ==>
        || (OnGrid(q, Size) && Adjacent(s.position, q) && !Own(m, q, s.color))
        || (!s.hasMoved && q == CastleTarget(s.position, true) && CastleReady(m, p, left, true))
        || (!s.hasMoved && q == CastleTarget(s.position, false) && CastleReady(m, p, right, false))
  {
    var (s, a) := (m.st[p], AttackMoves(m, p));
    KingLegalShape(probe, castle, m, p, q);
    if exists i :: 0 <= i < |a| && a[i] == q && !probe(Reached(probe, m, p, a, i), p, q).1 {
      KingAttacks(m, p, q);
    } else if !s.hasMoved {
      CastleScanReady(m, p, true);
      CastleScanReady(m, p, false);
    }
  }

  // ---------------------------------------------------------------------------------------
  // getLegalMoves of every kind, and getAllLegalMovesStart (Board.py:181-192)

  /** The moves getLegalMoves computes: the probed attack squares for the rook, knight, bishop
      and queen, the pawn and king rules above, and [] for any other kind. */
  function LegalMoves(probe: MoveTest, castle: CastleTest, m: Model, p: Piece): (Model, seq<Square>)
    requires Known(m) && p in m.st && CanAttack(m.st[p])
  {
    var s := m.st[p];
    if s.kind == Pawn then PawnLegal(probe, m, p)
    else if s.kind == King then KingLegal(probe, castle, m, p)
    else if 0 <= s.kind <= 5 then ProbeAll(probe, m, p, AttackMoves(m, p))
    else (m, [])
  }

  /** A rook, knight, bishop or queen may move exactly to the squares it attacks whose probe
      reports no check; a knight's are the on-board jump squares without a piece of its colour
      found first (the sliders' are described by SliderAttacks). */
  lemma LineLegal(probe: MoveTest, castle: CastleTest, m: Model, p: Piece, q: Square)
    requires Known(m) && p in m.st && CanAttack(m.st[p]) && m.st[p].kind in {Rook, Knight, Bishop, Queen}
    ensures var a := AttackMoves(m, p);
      q in LegalMoves(probe, castle, m, p).1 <==>
        exists i :: 0 <= i < |a| && a[i] == q && !probe(Reached(probe, m, p, a, i), p, q).1
    ensures m.st[p].kind == Knight && q in LegalMoves(probe, castle, m, p).1 ==>
      OnGrid(q, Size) && KnightOffset(m.st[p].position, q) && !Own(m, q, m.st[p].color)
  {
    ProbeAllIff(probe, m, p, AttackMoves(m, p), q);
    if m.st[p].kind == Knight {
      KnightAttacks(m, p, q);
    }
  }

  /** The king's castle probes keep the board arranged. */
  lemma {:induction false} CastlingArranged(castle: CastleTest, m: Model, king: Piece, found: Hit, q: Square, long: bool)
    requires forall m', rook, long' :: Movable(m', king) ==>
      Arranged(m', castle(m', king, rook, long').0) && Movable(castle(m', king, rook, long').0, king)
    requires Movable(m, king)
    ensures var r := Castling(castle, m, king, found, q, long).0;
      Arranged(m, r) && Movable(r, king)
  {
    if found.Miss? {
      ArrangedRefl(m);
    }
  }

  /** Probes that keep the board arranged keep every board getLegalMoves passes through
      arranged. */
  lemma LegalKeeps(probe: MoveTest, castle: CastleTest, m: Model, p: Piece)
    requires forall m', q :: Movable(m', p) ==> Arranged(m', probe(m', p, q).0) && Movable(probe(m', p, q).0, p)
    requires forall m', rook, long :: Movable(m', p) ==>
      Arranged(m', castle(m', p, rook, long).0) && Movable(castle(m', p, rook, long).0, p)
    requires Movable(m, p) && CanAttack(m.st[p])
    ensures var r := LegalMoves(probe, castle, m, p).0;
      Arranged(m, r) && Movable(r, p)
  {
    var s := m.st[p];
    if s.kind == Pawn {
      ProbeAllArranged(probe, m, p, PawnCandidates(m, p));
    } else if s.kind == King {
      var m1 := ProbeAll(probe, m, p, AttackMoves(m, p)).0;
      ProbeAllArranged(probe, m, p, AttackMoves(m, p));
      if !s.hasMoved {
        var left := CastleRook(m, p, 1, 4, -1);
        var m2 := Castling(castle, m1, p, left, CastleTarget(s.position, true), true).0;
        CastlingArranged(castle, m1, p, left, CastleTarget(s.position, true), true);
        CastlingArranged(castle, m2, p, CastleRook(m, p, 1, 3, 1), CastleTarget(s.position, false), false);
        ArrangedTrans(m, m1, m2);
        ArrangedTrans(m, m2, KingLegal(probe, castle, m, p).0);
      }
    } else if 0 <= s.kind <= 5 {
      ProbeAllArranged(probe, m, p, AttackMoves(m, p));
    } else {
      ArrangedRefl(m);
    }
  }

  /** self.legalMoves = legalMoves: only the piece's move list changes. */
  function Store(m: Model, p: Piece, moves: seq<Square>): (r: Model)
    requires Movable(m, p)
    ensures Arranged(m, r) && Movable(r, p)
    ensures r.st[p].legalMoves == moves
    ensures forall o :: o in m.st && o != p ==> r.st[o] == m.st[o]
  {
    var r := m.(st := m.st[p := m.st[p].(legalMoves := moves)]);
    StoreArranged(m, p, moves);
    LayoutMovable(m, r, p);
    r
  }

  lemma StoreArranged(m: Model, p: Piece, moves: seq<Square>)
    requires Valid(m) && p in m.st
    ensures Arranged(m, m.(st := m.st[p := m.st[p].(legalMoves := moves)]))
  {
    var r := m.(st := m.st[p := m.st[p].(legalMoves := moves)]);
    assert Layout(m, r);
  }

  /** piece.canBePassanted = False: only that flag changes. */
  function Unflag(m: Model, x: Piece): (r: Model)
    requires Valid(m) && x in m.st
    ensures Layout(m, r) && r.moveLog == m.moveLog && r.turn == m.turn
    ensures !r.st[x].canBePassanted
    ensures forall o :: o in m.st && o != x ==> r.st[o] == m.st[o]
    ensures r.st[x] == m.st[x].(canBePassanted := false)
  {
    var r := m.(st := m.st[x := m.st[x].(canBePassanted := false)]);
    assert Layout(m, r);
    r
  }

  /** getLegalMoves with the source's probes: the moves are stored in the piece's legalMoves,
      except by a piece of no known kind, whose base-class method stores nothing. */
  function GetLegalMoves(m: Model, p: Piece): (r: Model)
    requires Movable(m, p) && CanAttack(m.st[p])
    ensures Arranged(m, r) && Movable(r, p)
    ensures 0 <= m.st[p].kind <= 5 ==> r.st[p].legalMoves == LegalMoves(MoveProbe, CastleProbe, m, p).1
  {
    MoveProbeKeeps(p);
    CastleProbeKeeps(p);
    LegalKeeps(MoveProbe, CastleProbe, m, p);
    var (m1, moves) := LegalMoves(MoveProbe, CastleProbe, m, p);
    if 0 <= m.st[p].kind <= 5 then
      var r := Store(m1, p, moves);
      ArrangedTrans(m, m1, r);
      r
    else m1
  }

  /** What getAllLegalMovesStart needs of the pieces of color: the king test for color can run and
      every piece of color on the list stands on the board and, for a pawn, has a row ahead. */
  predicate Ready(m: Model, es: seq<Entry>, color: int) {
    && Guarded(m, color)
    && (forall e :: e in es ==> e.1 in m.st)
    && (forall e :: e in es && m.st[e.1].color == color ==> CanAttack(m.st[e.1]))
  }

  lemma ReadyKeeps(m: Model, m1: Model, es: seq<Entry>, color: int)
    requires Ready(m, es, color) && Layout(m, m1)
    ensures Ready(m1, es, color)
  {
    LayoutGuarded(m, m1, color);
  }

  /** What one step of getAllLegalMovesStart keeps of the board for piece x: the layout, the
      log, the turn and every hasMoved flag, and every canBePassanted flag but x's, which is
      cleared. */
  predicate Keeps(m: Model, r: Model, x: Piece) {
    && Layout(m, r) && r.moveLog == m.moveLog && r.turn == m.turn
    && (forall o :: o in m.st ==> r.st[o].hasMoved == m.st[o].hasMoved)
    && (forall o :: o in m.st && o != x ==> r.st[o].canBePassanted == m.st[o].canBePassanted)
    && x in r.st && !r.st[x].canBePassanted
  }

  /** One step of getAllLegalMovesStart for a piece x of color: compute its legal moves, then
      clear its canBePassanted flag. */
  function Listed(m: Model, x: Piece): (r: Model)
    requires Movable(m, x) && CanAttack(m.st[x])
    ensures Keeps(m, r, x)
  {
    var m1 := GetLegalMoves(m, x);
    var r := Unflag(m1, x);
    UnflagKeeps(m1, x);
    ArrangedKeeps(m, m1, r, x);
    r
  }

  lemma UnflagKeeps(m: Model, x: Piece)
    requires Valid(m) && x in m.st
    ensures Keeps(m, Unflag(m, x), x)
  {}

  lemma ArrangedKeeps(m: Model, m1: Model, r: Model, x: Piece)
    requires Arranged(m, m1) && Keeps(m1, r, x)
    ensures Keeps(m, r, x)
  {
    LayoutTrans(m, m1, r);
  }

  /** The move list a step leaves on a piece of a known kind is the one getLegalMoves found. */
  lemma ListedMoves(m: Model, x: Piece)
    requires Movable(m, x) && CanAttack(m.st[x]) && 0 <= m.st[x].kind <= 5
    ensures Listed(m, x).st[x].legalMoves == LegalMoves(MoveProbe, CastleProbe, m, x).1
  {
    assert Listed(m, x) == Unflag(GetLegalMoves(m, x), x);
  }

  type Lister = (Model, Piece) -> Model

  /** The loop of getAllLegalMovesStart(color) over the entries es (a copy of the dictionary
      taken before the loop), with the step for one piece as a parameter: every piece of color
      takes a step, and is listed with the move list the step left on it when that list is not
      empty. The membership tests only keep the function total; under Ready they always hold
      (ListAllKeeps). */
  function ListAll(list: Lister, m: Model, es: seq<Entry>, color: int): (Model, seq<(Piece, seq<Square>)>)
    decreases |es|
  {
    if es == [] then (m, [])
    else
      var x := es[0].1;
      if x in m.st && m.st[x].color == color then
        var m1 := list(m, x);
        var moves := if x in m1.st then m1.st[x].legalMoves else [];
        var (m2, rest) := ListAll(list, m1, es[1..], color);
        if moves == [] then (m2, rest) else (m2, [(x, moves)] + rest)
      else ListAll(list, m, es[1..], color)
  }

  /** A piece of color takes its step, and the loop goes on from the board the step leaves. */
  lemma ListAllStep(list: Lister, m: Model, es: seq<Entry>, color: int)
    requires es != [] && es[0].1 in m.st && m.st[es[0].1].color == color
    ensures ListAll(list, m, es, color).0 == ListAll(list, list(m, es[0].1), es[1..], color).0
  {
    var m1 := list(m, es[0].1);
    var (m2, rest) := ListAll(list, m1, es[1..], color);
    assert ListAll(list, m, es, color).0 == m2;
  }

  lemma ReadyRest(m: Model, es: seq<Entry>, color: int)
    requires es != [] && Ready(m, es, color)
    ensures es[0].1 in m.st && Ready(m, es[1..], color)
  {
    assert es[0] in es;
    assert forall e :: e in es[1..] ==> e in es;
  }

  /** What the whole loop keeps of the board: the layout, the log, the turn and the hasMoved
      flags; it sets no canBePassanted flag. */
  predicate Kept(m: Model, r: Model) {
    && Layout(m, r) && r.moveLog == m.moveLog && r.turn == m.turn
    && (forall o :: o in m.st ==> r.st[o].hasMoved == m.st[o].hasMoved)
    && (forall o :: o in m.st && !m.st[o].canBePassanted ==> !r.st[o].canBePassanted)
  }

  lemma KeptStep(m: Model, m1: Model, m2: Model, x: Piece)
    requires Keeps(m, m1, x) && Kept(m1, m2)
    ensures Kept(m, m2) && !m2.st[x].canBePassanted
  {
    LayoutTrans(m, m1, m2);
  }

  /** A loop whose steps keep what Keeps says keeps what Kept says. */
  lemma {:induction false} ListAllKeeps(list: Lister, m: Model, es: seq<Entry>, color: int)
    requires forall m', x {:trigger Keeps(m', list(m', x), x)} ::
      Movable(m', x) && CanAttack(m'.st[x]) ==> Keeps(m', list(m', x), x)
    requires Ready(m, es, color)
    ensures Kept(m, ListAll(list, m, es, color).0)
    decreases |es|
  {
    if es == [] {
      ArrangedRefl(m);
    } else {
      var x := es[0].1;
      ReadyRest(m, es, color);
      if m.st[x].color == color {
        var m1 := list(m, x);
        assert Keeps(m, m1, x);
        ReadyKeeps(m, m1, es[1..], color);
        ListAllKeeps(list, m1, es[1..], color);
        ListAllStep(list, m, es, color);
        KeptStep(m, m1, ListAll(list, m1, es[1..], color).0, x);
      } else {
        ListAllKeeps(list, m, es[1..], color);
      }
    }
  }

  /** Piece x stands in one of the entries es. */
  predicate OnList(es: seq<Entry>, x: Piece) {
    exists j :: 0 <= j < |es| && es[j].1 == x
  }

  lemma RestOnList(es: seq<Entry>, x: Piece)
    requires es != [] && OnList(es[1..], x)
    ensures OnList(es, x)
  {
    var j :| 0 <= j < |es[1..]| && es[1..][j].1 == x;
    assert es[j + 1].1 == x;
  }

  /** Board r holds the same pieces as m, in the same colours. */
  predicate SameColors(m: Model, r: Model) {
    m.st.Keys == r.st.Keys && forall o :: o in m.st ==> r.st[o].color == m.st[o].color
  }

  /** Every listed piece is a piece of color from es with a nonempty move list. */
  lemma {:induction false} ListAllListed(list: Lister, m: Model, es: seq<Entry>, color: int, i: int)
    requires forall m', x :: SameColors(m', list(m', x))
    requires 0 <= i < |ListAll(list, m, es, color).1|
    ensures var (x, moves) := ListAll(list, m, es, color).1[i];
      moves != [] && x in m.st && m.st[x].color == color && OnList(es, x)
    decreases |es|
  {
    var x := es[0].1;
    var r := ListAll(list, m, es, color).1;
    if x in m.st && m.st[x].color == color {
      var m1 := list(m, x);
      assert SameColors(m, m1);
      var rest := ListAll(list, m1, es[1..], color).1;
      var moves := m1.st[x].legalMoves;
      if moves == [] {
        assert r == rest;
        ListAllListed(list, m1, es[1..], color, i);
        RestOnList(es, r[i].0);
      } else if i == 0 {
        assert r[0] == (x, moves);
        assert es[0].1 == r[0].0;
      } else {
        assert r == [(x, moves)] + rest;
        ConsIndex((x, moves), rest, i);
        ListAllListed(list, m1, es[1..], color, i - 1);
        RestOnList(es, r[i].0);
      }
    } else {
      ListAllListed(list, m, es[1..], color, i);
      RestOnList(es, r[i].0);
    }
  }

  /** Every piece of color whose step, on the board the loop reaches it with, leaves a
      nonempty move list is listed with that list. */
  lemma {:induction false} ListAllComplete(list: Lister, m: Model, es: seq<Entry>, color: int, j: int)
    requires 0 <= j < |es|
    requires var (mj, x) := (ListAll(list, m, es[..j], color).0, es[j].1);
      x in mj.st && mj.st[x].color == color && x in list(mj, x).st && list(mj, x).st[x].legalMoves != []
    ensures var (mj, x) := (ListAll(list, m, es[..j], color).0, es[j].1);
      (x, list(mj, x).st[x].legalMoves) in ListAll(list, m, es, color).1
    decreases j
  {
    var x := es[0].1;
    if j == 0 {
      assert es[..0] == [];
      var m1 := list(m, x);
      var rest := ListAll(list, m1, es[1..], color).1;
      assert ListAll(list, m, es, color).1 == [(x, m1.st[x].legalMoves)] + rest;
    } else {
      assert es[..j][1..] == es[1..][..j - 1];
      assert es[1..][j - 1] == es[j];
      if x in m.st && m.st[x].color == color {
        var m1 := list(m, x);
        assert ListAll(list, m, es[..j], color).0 == ListAll(list, m1, es[1..][..j - 1], color).0;
        ListAllComplete(list, m1, es[1..], color, j - 1);
        var moves := if x in m1.st then m1.st[x].legalMoves else [];
        var rest := ListAll(list, m1, es[1..], color).1;
        assert ListAll(list, m, es, color).1 == (if moves == [] then rest else [(x, moves)] + rest);
      } else {
        assert ListAll(list, m, es[..j], color).0 == ListAll(list, m, es[1..][..j - 1], color).0;
        ListAllComplete(list, m, es[1..], color, j - 1);
      }
    }
  }

  lemma ConsIndex<T>(h: T, rest: seq<T>, i: int)
    requires 0 < i <= |rest|
    ensures ([h] + rest)[i] == rest[i - 1]
  {}

  /** Afterwards no piece of color on the list may be taken in passing. */
  lemma {:induction false} ListAllUnflags(list: Lister, m: Model, es: seq<Entry>, color: int, j: int)
    requires forall m', x {:trigger Keeps(m', list(m', x), x)} ::
      Movable(m', x) && CanAttack(m'.st[x]) ==> Keeps(m', list(m', x), x)
    requires Ready(m, es, color) && 0 <= j < |es| && es[j].1 in m.st && m.st[es[j].1].color == color
    ensures var r := ListAll(list, m, es, color).0;
      es[j].1 in r.st && !r.st[es[j].1].canBePassanted
    decreases |es|, 1
  {
    ReadyRest(m, es, color);
    if j == 0 {
      ListAllUnflagsHead(list, m, es, color);
    } else if m.st[es[0].1].color != color {
      ListAllUnflagsSkip(list, m, es, color, j);
    } else {
      ListAllUnflagsStep(list, m, es, color, j);
    }
  }

  /** The first entry is of the other colour: the loop goes on from the same board. */
  lemma {:induction false} ListAllUnflagsSkip(list: Lister, m: Model, es: seq<Entry>, color: int, j: int)
    requires forall m', x {:trigger Keeps(m', list(m', x), x)} ::
      Movable(m', x) && CanAttack(m'.st[x]) ==> Keeps(m', list(m', x), x)
    requires Ready(m, es, color) && 0 < j < |es| && es[j].1 in m.st && m.st[es[j].1].color == color
    requires es[0].1 in m.st && m.st[es[0].1].color != color
    ensures var r := ListAll(list, m, es, color).0;
      es[j].1 in r.st && !r.st[es[j].1].canBePassanted
    decreases |es|, 0
  {
    ReadyRest(m, es, color);
    assert es[1..][j - 1] == es[j];
    ListAllUnflags(list, m, es[1..], color, j - 1);
    assert ListAll(list, m, es, color).0 == ListAll(list, m, es[1..], color).0;
  }

  /** The first entry is of color: the loop goes on from the board its step leaves. */
  lemma {:induction false} ListAllUnflagsStep(list: Lister, m: Model, es: seq<Entry>, color: int, j: int)
    requires forall m', x {:trigger Keeps(m', list(m', x), x)} ::
      Movable(m', x) && CanAttack(m'.st[x]) ==> Keeps(m', list(m', x), x)
    requires Ready(m, es, color) && 0 < j < |es| && es[j].1 in m.st && m.st[es[j].1].color == color
    requires es[0].1 in m.st && m.st[es[0].1].color == color
    ensures var r := ListAll(list, m, es, color).0;
      es[j].1 in r.st && !r.st[es[j].1].canBePassanted
    decreases |es|, 0
  {
    var x := es[0].1;
    ReadyRest(m, es, color);
    var m1 := list(m, x);
    assert Keeps(m, m1, x);
    ReadyKeeps(m, m1, es[1..], color);
    assert es[1..][j - 1] == es[j];
    ListAllUnflags(list, m1, es[1..], color, j - 1);
    ListAllStep(list, m, es, color);
  }

  lemma ListAllUnflagsHead(list: Lister, m: Model, es: seq<Entry>, color: int)
    requires forall m', x {:trigger Keeps(m', list(m', x), x)} ::
      Movable(m', x) && CanAttack(m'.st[x]) ==> Keeps(m', list(m', x), x)
    requires Ready(m, es, color) && es != [] && es[0].1 in m.st && m.st[es[0].1].color == color
    ensures var r := ListAll(list, m, es, color).0;
      es[0].1 in r.st && !r.st[es[0].1].canBePassanted
  {
    var x := es[0].1;
    ReadyRest(m, es, color);
    var m1 := list(m, x);
    assert Keeps(m, m1, x);
    ReadyKeeps(m, m1, es[1..], color);
    ListAllKeeps(list, m1, es[1..], color);
    ListAllStep(list, m, es, color);
    KeptStep(m, m1, ListAll(list, m1, es[1..], color).0, x);
  }

  /** The step of getAllLegalMovesStart, total: under Ready it is always Listed. */
  function ListStep(m: Model, x: Piece): Model {
    if Movable(m, x) && CanAttack(m.st[x]) then Listed(m, x) else m
  }

  lemma ListStepKeeps()
    ensures forall m, x {:trigger Keeps(m, ListStep(m, x), x)} ::
      Movable(m, x) && CanAttack(m.st[x]) ==> Keeps(m, ListStep(m, x), x)
    ensures forall m, x :: SameColors(m, ListStep(m, x))
  {
    forall m, x | Movable(m, x) && CanAttack(m.st[x])
      ensures Keeps(m, ListStep(m, x), x)
    {
      var r := Listed(m, x);
      assert ListStep(m, x) == r;
      assert Layout(m, r) && x in r.st;
    }
    forall m, x
      ensures SameColors(m, ListStep(m, x))
    {
      if Movable(m, x) && CanAttack(m.st[x]) {
        assert Layout(m, Listed(m, x));
      }
    }
  }

  /** getAllLegalMovesStart(color) over the entries es: every piece of color gets its legal
      moves and loses its canBePassanted flag, and is listed with its moves when they are not
      empty; nothing else changes but the move lists and the probes' attackedSquares and
      dictionary order. */
  function AllLegal(m: Model, es: seq<Entry>, color: int): (r: (Model, seq<(Piece, seq<Square>)>))
    requires Ready(m, es, color)
    ensures Layout(m, r.0) && r.0.moveLog == m.moveLog && r.0.turn == m.turn
    ensures forall o :: o in m.st ==> r.0.st[o].hasMoved == m.st[o].hasMoved
    ensures forall o :: o in m.st && !m.st[o].canBePassanted ==> !r.0.st[o].canBePassanted
  {
    ListStepKeeps();
    ListAllKeeps(ListStep, m, es, color);
    var r := ListAll(ListStep, m, es, color);
    assert Kept(m, r.0);
    r
  }

  /** Every piece getAllLegalMovesStart lists is a piece of color from es with a nonempty move
      list. */
  lemma AllLegalListed(m: Model, es: seq<Entry>, color: int, i: int)
    requires Ready(m, es, color) && 0 <= i < |AllLegal(m, es, color).1|
    ensures var (x, moves) := AllLegal(m, es, color).1[i];
      moves != [] && x in m.st && m.st[x].color == color && OnList(es, x)
  {
    ListStepKeeps();
    ListAllListed(ListStep, m, es, color, i);
  }

  /** Every piece of color on the copied list whose legal moves, computed on the board the loop
      reaches it with, are not empty is listed with those moves (for a piece of a known kind). */
  lemma AllLegalComplete(m: Model, es: seq<Entry>, color: int, j: int)
    requires Ready(m, es, color) && 0 <= j < |es| && es[j].1 in m.st && m.st[es[j].1].color == color
    ensures var (mj, x) := (ListAll(ListStep, m, es[..j], color).0, es[j].1);
      && Movable(mj, x) && CanAttack(mj.st[x])
      && (0 <= mj.st[x].kind <= 5 ==>
            ListStep(mj, x).st[x].legalMoves == LegalMoves(MoveProbe, CastleProbe, mj, x).1)
      && (ListStep(mj, x).st[x].legalMoves != [] ==>
            (x, ListStep(mj, x).st[x].legalMoves) in AllLegal(m, es, color).1)
  {
    var (mj, x) := (ListAll(ListStep, m, es[..j], color).0, es[j].1);
    assert Ready(m, es[..j], color) by {
      assert forall e :: e in es[..j] ==> e in es;
    }
    ListStepKeeps();
    ListAllKeeps(ListStep, m, es[..j], color);
    LayoutGuarded(m, mj, color);
    assert Movable(mj, x) && CanAttack(mj.st[x]);
    assert ListStep(mj, x) == Listed(mj, x);
    if 0 <= mj.st[x].kind <= 5 {
      ListedMoves(mj, x);
    }
    if ListStep(mj, x).st[x].legalMoves != [] {
      ListAllComplete(ListStep, m, es, color, j);
    }
  }

  /** After getAllLegalMovesStart(color) no piece of color on the list may be taken in
      passing. */
  lemma AllLegalUnflags(m: Model, es: seq<Entry>, color: int, j: int)
    requires Ready(m, es, color) && 0 <= j < |es| && es[j].1 in m.st && m.st[es[j].1].color == color
    ensures !AllLegal(m, es, color).0.st[es[j].1].canBePassanted
  {
    ListStepKeeps();
    ListAllUnflags(ListStep, m, es, color, j);
  }
}
