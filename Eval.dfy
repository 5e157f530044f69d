// The static evaluation of engine/main.c: a material value per piece and, for every piece but the
// queens, a piece-square bonus read from white's point of view. Black pieces read the white table
// at the mirrored square and count negatively. evaluate returns the total for white, negated when
// black is to move. The loop that computes it is Board.Evaluate in Engine.dfy.
module Eval {
  import opened Bits
  import opened Leapers
  import opened State

  /** material_score, indexed by piece board. */
  const MaterialScore: seq<int> :=
    [100, 300, 350, 500, 1000, 10000, -100, -300, -350, -500, -1000, -10000]

  /** pawn_score, knight_score, bishop_score, rook_score and king_score, indexed by square
      (a8 first). */
  function PawnScore(i: int): int
    requires 0 <= i < 64
  {
    [
    90, 90, 90, 90, 90, 90, 90, 90,
    30, 30, 30, 40, 40, 30, 30, 30,
    20, 20, 20, 30, 30, 30, 20, 20,
    10, 10, 10, 20, 20, 10, 10, 10,
    5, 5, 10, 20, 20, 5, 5, 5,
    0, 0, 0, 5, 5, 0, 0, 0,
    0, 0, 0, -10, -10, 0, 0, 0,
    0, 0, 0, 0, 0, 0, 0, 0][i]
  }

  function KnightScore(i: int): int
    requires 0 <= i < 64
  {
    [
    -5, 0, 0, 0, 0, 0, 0, -5,
    -5, 0, 0, 10, 10, 0, 0, -5,
    -5, 5, 20, 20, 20, 20, 5, -5,
    -5, 10, 20, 30, 30, 20, 10, -5,
    -5, 10, 20, 30, 30, 20, 10, -5,
    -5, 5, 20, 10, 10, 20, 5, -5,
    -5, 0, 0, 0, 0, 0, 0, -5,
    -5, -10, 0, 0, 0, 0, -10, -5][i]
  }

  function BishopScore(i: int): int
    requires 0 <= i < 64
  {
    [
    0, 0, 0, 0, 0, 0, 0, 0,
    0, 0, 0, 0, 0, 0, 0, 0,
    0, 0, 0, 10, 10, 0, 0, 0,
    0, 0, 10, 20, 20, 10, 0, 0,
    0, 0, 10, 20, 20, 10, 0, 0,
    0, 10, 0, 0, 0, 0, 10, 0,
    0, 30, 0, 0, 0, 0, 30, 0,
    0, 0, -10, 0, 0, -10, 0, 0][i]
  }

  function RookScore(i: int): int
    requires 0 <= i < 64
  {
    [
    50, 50, 50, 50, 50, 50, 50, 50,
    50, 50, 50, 50, 50, 50, 50, 50,
    0, 0, 10, 20, 20, 10, 0, 0,
    0, 0, 10, 20, 20, 10, 0, 0,
    0, 0, 10, 20, 20, 10, 0, 0,
    0, 0, 10, 20, 20, 10, 0, 0,
    0, 0, 10, 20, 20, 10, 0, 0,
    0, 0, 0, 20, 20, 0, 0, 0][i]
  }

  function KingScore(i: int): int
    requires 0 <= i < 64
  {
    [
    0, 0, 0, 0, 0, 0, 0, 0,
    0, 0, 5, 5, 5, 5, 0, 0,
    0, 5, 5, 10, 10, 5, 5, 0,
    0, 5, 10, 20, 20, 10, 5, 0,
    0, 5, 10, 20, 20, 10, 5, 0,
    0, 0, 5, 10, 10, 5, 0, 0,
    0, 5, 5, -5, -5, 0, 5, 0,
    0, 0, 5, 0, -15, 0, 10, 0][i]
  }

  /** mirror_score: it lists a1..h1, then a2..h2 and so on up to a8..h8, so entry i is the square
      on i's file and on the rank across the board from i's. */
  function Mirror(i: int): (j: int)
    requires 0 <= i < 64
    ensures 0 <= j < 64 && j % 8 == i % 8 && j / 8 == 7 - i / 8
  {
    (7 - i / 8) * 8 + i % 8
  }

  /** The piece-square table of a kind of piece, from white's point of view; queens have none. */
  function Bonus(kind: int, i: int): int
    requires 0 <= kind < 6 && 0 <= i < 64
  {
    if kind == Pawn then PawnScore(i)
    else if kind == Knight then KnightScore(i)
    else if kind == Bishop then BishopScore(i)
    else if kind == Rook then RookScore(i)
    else if kind == King then KingScore(i)
    else 0
  }

  /** The switch of evaluate: the piece-square bonus of a piece on square i. White pieces (boards
      0 to 5) add their table entry; black pieces (boards 6 to 11) subtract the entry of the white
      piece of their kind at the mirrored square. */
  function Positional(piece: int, i: int): int
    requires 0 <= piece < 12 && 0 <= i < 64
  {
    if piece < 6 then Bonus(piece, i) else -Bonus(piece - 6, Mirror(i))
  }

  /** What one piece on square i adds to white's total. */
  function Value(piece: int, i: int): int
    requires 0 <= piece < 12 && 0 <= i < 64
  {
    MaterialScore[piece] + Positional(piece, i)
  }

  /** Mirroring a square twice gives the square back. */
  lemma MirrorTwice(i: int)
    requires 0 <= i < 64
    ensures Mirror(Mirror(i)) == i
  {}

  /** The tables are mirrored for black: a black piece on the mirrored square is worth exactly the
      negation of the white piece of the same kind on the square. */
  lemma ColourSymmetry(kind: int, i: int)
    requires Pawn <= kind <= King && 0 <= i < 64
    ensures Value(BoardOf(Black, kind), Mirror(i)) == -Value(BoardOf(White, kind), i)
  {
    MirrorTwice(i);
    assert MaterialScore[BoardOf(Black, kind)] == -MaterialScore[BoardOf(White, kind)];
  }

  /** The inner loop of evaluate: the pieces of one board, lowest square first. */
  function BoardScore(piece: int, b: Bitboard): int
    requires 0 <= piece < 12
    decreases PopCount(b)
  {
    if b == 0 then 0 else Value(piece, Index(Lsb(b))) + BoardScore(piece, Rest(b))
  }

  /** The outer loop of evaluate: the boards below hi, in piece order. */
  function ScoreBelow(p: Position, hi: int): int
    requires Valid(p) && 0 <= hi <= 12
  {
    if hi == 0 then 0 else ScoreBelow(p, hi - 1) + BoardScore(hi - 1, p.bitboards[hi - 1])
  }

  /** evaluate: white's total, from the point of view of the side to move. */
  function Evaluation(p: Position): int
    requires Valid(p)
  {
    if p.side == White then ScoreBelow(p, 12) else -ScoreBelow(p, 12)
  }

  /** The inner loop of evaluate over a copy of one piece board: take the lowest square, add the
      material and the piece-square bonus, pop the square. */
  method AddBoard(score: int, piece: int, board: Bitboard) returns (r: int)
    requires 0 <= piece < 12
    ensures r == score + BoardScore(piece, board)
  {
    var bitboard := board;
    r := score;
    while bitboard != 0
      invariant r + BoardScore(piece, bitboard) == score + BoardScore(piece, board)
      decreases PopCount(bitboard)
    {
      var square := Lsb(bitboard);
      r := r + MaterialScore[piece];
      r := r + Positional(piece, Index(square));
      bitboard := PopBit(bitboard, square);
    }
  }

  // ----- The total does not depend on the order the squares are visited in -----

  /** The values of the squares flagged in m (the first |m| squares of the board). */
  function SquareSum(piece: int, m: seq<bool>): int
    requires 0 <= piece < 12 && |m| <= 64
  {
    if m == [] then 0
    else SquareSum(piece, m[..|m| - 1]) + (if m[|m| - 1] then Value(piece, |m| - 1) else 0)
  }

  /** Flagging one more square adds its value. */
  lemma {:induction false} SquareSumUpdate(piece: int, m: seq<bool>, i: int)
    requires 0 <= piece < 12 && |m| <= 64 && 0 <= i < |m| && !m[i]
    ensures SquareSum(piece, m[i := true]) == SquareSum(piece, m) + Value(piece, i)
    decreases |m|
  {
    var k := |m| - 1;
    if i < k {
      assert m[i := true][..k] == m[..k][i := true];
      SquareSumUpdate(piece, m[..k], i);
    } else {
      assert m[i := true][..k] == m[..k];
    }
  }

  /** The inner loop's total is the sum of the values of the squares on the board, whatever the
      order it visits them in. */
  lemma {:induction false} BoardScoreSum(piece: int, b: Bitboard)
    requires 0 <= piece < 12
    ensures BoardScore(piece, b) == SquareSum(piece, Members(b))
    decreases PopCount(b)
  {
    if b == 0 {
      MembersEmpty();
      NoFlags(piece, Members(b));
    } else {
      var l := Lsb(b);
      LsbSet(b);
      BoardScoreSum(piece, Rest(b));
      MembersPopBit(b, l);
      MembersAt(b, l);
      assert Members(b) == Members(Rest(b))[Index(l) := true];
      SquareSumUpdate(piece, Members(Rest(b)), Index(l));
    }
  }

  /** No flagged square, no value. */
  lemma {:induction false} NoFlags(piece: int, m: seq<bool>)
    requires 0 <= piece < 12 && |m| <= 64 && forall i :: 0 <= i < |m| ==> !m[i]
    ensures SquareSum(piece, m) == 0
    decreases |m|
  {
    if m != [] {
      NoFlags(piece, m[..|m| - 1]);
    }
  }
}
