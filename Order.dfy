// Move ordering in engine/main.c: scoreMove rates a capture by the mvv_lva table (most valuable
// victim first, least valuable attacker breaking ties) and every other move 0; sortMoves sorts a
// move list by those scores with an exchange sort that swaps a move and its score together.
module Order {
  import opened Bits
  import opened Leapers
  import opened Moves
  import opened State

  /** mvv_lva[attacker][victim]. */
  const MvvLva: seq<seq<int>> := [
    [105, 205, 305, 405, 505, 605, 105, 205, 305, 405, 505, 605],
    [104, 204, 304, 404, 504, 604, 104, 204, 304, 404, 504, 604],
    [103, 203, 303, 403, 503, 603, 103, 203, 303, 403, 503, 603],
    [102, 202, 302, 402, 502, 602, 102, 202, 302, 402, 502, 602],
    [101, 201, 301, 401, 501, 601, 101, 201, 301, 401, 501, 601],
    [100, 200, 300, 400, 500, 600, 100, 200, 300, 400, 500, 600],
    [105, 205, 305, 405, 505, 605, 105, 205, 305, 405, 505, 605],
    [104, 204, 304, 404, 504, 604, 104, 204, 304, 404, 504, 604],
    [103, 203, 303, 403, 503, 603, 103, 203, 303, 403, 503, 603],
    [102, 202, 302, 402, 502, 602, 102, 202, 302, 402, 502, 602],
    [101, 201, 301, 401, 501, 601, 101, 201, 301, 401, 501, 601],
    [100, 200, 300, 400, 500, 600, 100, 200, 300, 400, 500, 600]]

  /** Each entry is 100 times the victim's rank (pawn 1 up to king 6) plus 5 less the attacker's
      rank (pawn 0 up to king 5), whatever the colours. */
  lemma MvvLvaFormula(attacker: int, victim: int)
    requires 0 <= attacker < 12 && 0 <= victim < 12
    ensures MvvLva[attacker][victim] == 100 * (victim % 6 + 1) + 5 - attacker % 6
  {
    var a := attacker % 6;
    var row := MvvLva[attacker];
    assert row == MvvLva[a];
    assert row == [105 - a, 205 - a, 305 - a, 405 - a, 505 - a, 605 - a,
                   105 - a, 205 - a, 305 - a, 405 - a, 505 - a, 605 - a] by {
      if a == 0 {
      } else if a == 1 {
      } else if a == 2 {
      } else if a == 3 {
      } else if a == 4 {
      } else {
      }
    }
    RowFormula(row, a, victim);
  }

  /** Reading one row of the table laid out by victim. */
  lemma RowFormula(row: seq<int>, a: int, victim: int)
    requires 0 <= victim < 12
    requires row == [105 - a, 205 - a, 305 - a, 405 - a, 505 - a, 605 - a,
                     105 - a, 205 - a, 305 - a, 405 - a, 505 - a, 605 - a]
    ensures row[victim] == 100 * (victim % 6 + 1) + 5 - a
  {
    if victim >= 6 {
      assert row[victim] == row[victim - 6];
    }
  }

  /** A more valuable victim always scores higher, whoever captures it; the same victim scores
      higher for a less valuable attacker. */
  lemma MvvLvaOrder(a: int, v: int, b: int, w: int)
    requires 0 <= a < 12 && 0 <= v < 12 && 0 <= b < 12 && 0 <= w < 12
    ensures v % 6 > w % 6 ==> MvvLva[a][v] > MvvLva[b][w]
    ensures v % 6 == w % 6 && a % 6 < b % 6 ==> MvvLva[a][v] > MvvLva[b][w]
  {
    MvvLvaFormula(a, v);
    MvvLvaFormula(b, w);
  }

  /** The capture loop of scoreMove over boards lo..hi-1: the last of them holding t, or `none`
      when none does. */
  function LastHolder(bbs: seq<Bitboard>, lo: int, hi: int, t: Square, none: int): (k: int)
    requires 0 <= lo <= hi <= |bbs|
    ensures k == none || (lo <= k < hi && GetBit(bbs[k], t))
    decreases hi
  {
    if hi == lo then none
    else if GetBit(bbs[hi - 1], t) then hi - 1
    else LastHolder(bbs, lo, hi - 1, t, none)
  }

  /** The victim scoreMove assumes on square t: the last enemy board holding t, and the white pawn
      board P when none does. */
  function Victim(p: Position, t: Square): int
    requires Valid(p)
  {
    LastHolder(p.bitboards, BoardOf(1 - p.side, Pawn), BoardOf(1 - p.side, King) + 1, t, Pawn)
  }

  /** scoreMove: mvv_lva of the moving piece and the victim for a capture, 0 for any other move. */
  function MoveScore(p: Position, m: Move): int
    requires Valid(p) && Piece(m) < 12
  {
    if IsCapture(m) then MvvLva[Piece(m)][Victim(p, SquareOf(Target(m)))] else 0
  }

  /** The victim is the enemy piece standing on the square when exactly one enemy board holds
      it, and the white pawn board when none does. */
  lemma VictimSpec(p: Position, t: Square, k: int)
    requires Valid(p) && BoardOf(1 - p.side, Pawn) <= k <= BoardOf(1 - p.side, King)
    requires GetBit(p.bitboards[k], t)
    requires forall j :: BoardOf(1 - p.side, Pawn) <= j <= BoardOf(1 - p.side, King) && j != k ==>
      !GetBit(p.bitboards[j], t)
    ensures Victim(p, t) == k
  {
    var lo, hi := BoardOf(1 - p.side, Pawn), BoardOf(1 - p.side, King) + 1;
    HolderAbove(p.bitboards, lo, hi, k, t);
  }

  /** With no board above k holding t, the last holder of k..hi-1 is k itself. */
  lemma {:induction false} HolderAbove(bbs: seq<Bitboard>, lo: int, hi: int, k: int, t: Square)
    requires 0 <= lo <= k < hi <= |bbs| && GetBit(bbs[k], t)
    requires forall j :: k < j < hi ==> !GetBit(bbs[j], t)
    ensures LastHolder(bbs, lo, hi, t, Pawn) == k
    decreases hi
  {
    if hi - 1 != k {
      HolderAbove(bbs, lo, hi - 1, k, t);
    }
  }

  /** With no board holding t, scoreMove falls back to the white pawn. */
  lemma {:induction false} NoHolder(bbs: seq<Bitboard>, lo: int, hi: int, t: Square)
    requires 0 <= lo <= hi <= |bbs|
    requires forall j :: lo <= j < hi ==> !GetBit(bbs[j], t)
    ensures LastHolder(bbs, lo, hi, t, Pawn) == Pawn
    decreases hi
  {
    if hi != lo {
      NoHolder(bbs, lo, hi - 1, t);
    }
  }

  /** Quiet moves score 0 and captures score between 100 (a king taking a pawn) and 605 (a pawn
      taking a king). */
  lemma MoveScoreRange(p: Position, m: Move)
    requires Valid(p) && Piece(m) < 12
    ensures !IsCapture(m) ==> MoveScore(p, m) == 0
    ensures IsCapture(m) ==> 100 <= MoveScore(p, m) <= 605
  {
    if IsCapture(m) {
      MvvLvaFormula(Piece(m), Victim(p, SquareOf(Target(m))));
    }
  }

  /** The scores are attached to the moves they were computed from. */
  ghost predicate Scored(p: Position, moves: seq<Move>, scores: seq<int>)
    requires Valid(p)
  {
    |moves| == |scores| &&
    forall k :: 0 <= k < |moves| ==> Piece(moves[k]) < 12 && scores[k] == MoveScore(p, moves[k])
  }

  /** Scores that never increase along the list. */
  predicate NonIncreasing(scores: seq<int>) {
    forall i, j :: 0 <= i < j < |scores| ==> scores[i] >= scores[j]
  }

  /** The moves are listed by non-increasing score. */
  ghost predicate ByScore(p: Position, ms: seq<Move>)
    requires Valid(p)
  {
    (forall k :: 0 <= k < |ms| ==> Piece(ms[k]) < 12) &&
    forall i, j :: 0 <= i < j < |ms| ==> MoveScore(p, ms[i]) >= MoveScore(p, ms[j])
  }

  /** The exchange sort of sortMoves: for each position, every later move with a higher score is
      swapped into it, together with its score. */
  method ExchangeSort(moves: array<Move>, scores: array<int>, n: int, ghost p: Position)
    requires Valid(p) && 0 <= n <= moves.Length && n == scores.Length
    requires Scored(p, moves[..n], scores[..])
    modifies moves, scores
    ensures multiset(moves[..n]) == multiset(old(moves[..n])) && moves[n..] == old(moves[n..])
    ensures Scored(p, moves[..n], scores[..]) && NonIncreasing(scores[..])
    ensures ByScore(p, moves[..n])
  {
    for current := 0 to n
      invariant multiset(moves[..n]) == multiset(old(moves[..n])) && moves[n..] == old(moves[n..])
      invariant Scored(p, moves[..n], scores[..])
      invariant forall i, j :: 0 <= i < current && i < j < n ==> scores[i] >= scores[j]
    {
      Exchange(moves, scores, n, current, p);
    }
  }

  /** The inner loop of sortMoves: bring the highest score of positions current..n-1 into
      position current. */
  method Exchange(moves: array<Move>, scores: array<int>, n: int, current: int, ghost p: Position)
    requires Valid(p) && 0 <= current < n <= moves.Length && n == scores.Length
    requires Scored(p, moves[..n], scores[..])
    requires forall i, j :: 0 <= i < current && i < j < n ==> scores[i] >= scores[j]
    modifies moves, scores
    ensures multiset(moves[..n]) == multiset(old(moves[..n])) && moves[n..] == old(moves[n..])
    ensures Scored(p, moves[..n], scores[..])
    ensures forall i, j :: 0 <= i <= current && i < j < n ==> scores[i] >= scores[j]
  {
    for next := current + 1 to n
      invariant multiset(moves[..n]) == multiset(old(moves[..n])) && moves[n..] == old(moves[n..])
      invariant Scored(p, moves[..n], scores[..])
      invariant forall i, j :: 0 <= i < current && i < j < n ==> scores[i] >= scores[j]
      invariant forall j :: current < j < next ==> scores[current] >= scores[j]
    {
      if scores[current] < scores[next] {
        Swap(moves, scores, n, current, next, p);
      }
    }
    forall i, j | 0 <= i <= current && i < j < n ensures scores[i] >= scores[j] {
      if i == current {
        assert current < j < n;
      }
    }
  }

  /** One exchange: the move and the score at i and at j trade places. */
  method Swap(moves: array<Move>, scores: array<int>, n: int, i: int, j: int, ghost p: Position)
    requires Valid(p) && 0 <= i < j < n <= moves.Length && n == scores.Length
    requires Scored(p, moves[..n], scores[..])
    modifies moves, scores
    ensures multiset(moves[..n]) == multiset(old(moves[..n])) && moves[n..] == old(moves[n..])
    ensures Scored(p, moves[..n], scores[..])
    ensures scores[i] == old(scores[j]) && scores[j] == old(scores[i])
    ensures forall k :: 0 <= k < n && k != i && k != j ==> scores[k] == old(scores[k])
  {
    scores[i], scores[j] := scores[j], scores[i];
    moves[i], moves[j] := moves[j], moves[i];
    assert moves[..n] == old(moves[..n])[i := old(moves[j])][j := old(moves[i])];
  }
}
