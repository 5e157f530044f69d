// What the search of engine/main.c computes. quiescenceSearch and negamax are fail-hard
// alpha-beta searches: their result is the plain minimax value of the position cut to the window
// [alpha, beta]. This module defines those values over the generated move list (QValue for the
// capture-only quiescence search, NValue for negamax with its check extension and mate scores)
// and the leaf count of perftDriver (PerftCount). The methods that run the searches on the board
// are in Engine.dfy and are proved against these functions.
module Search {
  import opened Bits
  import opened Leapers
  import opened Moves
  import opened State
  import opened Generate
  import opened GenerateFacts
  import opened Eval

  /** The score negamax gives a side that is mated at ply 0. */
  const MateScore := -49000

  // ----- Lists built move by move -----

  /** What f gives for each element of the list, joined in list order. */
  function Concat<T, U>(ms: seq<T>, f: T -> seq<U>): seq<U>
    decreases |ms|
  {
    if ms == [] then [] else Concat(ms[..|ms| - 1], f) + f(ms[|ms| - 1])
  }

  /** The total of what f gives for each element of the list. */
  function Sum<T>(ms: seq<T>, f: T -> nat): nat
    decreases |ms|
  {
    if ms == [] then 0 else Sum(ms[..|ms| - 1], f) + f(ms[|ms| - 1])
  }

  /** One more element at a time, as a loop over the list builds it. */
  lemma ConcatStep<T, U>(ms: seq<T>, i: int, f: T -> seq<U>)
    requires 0 <= i < |ms|
    ensures Concat(ms[..i + 1], f) == Concat(ms[..i], f) + f(ms[i])
  {
    assert ms[..i + 1][..i] == ms[..i];
  }

  lemma SumStep<T>(ms: seq<T>, i: int, f: T -> nat)
    requires 0 <= i < |ms|
    ensures Sum(ms[..i + 1], f) == Sum(ms[..i], f) + f(ms[i])
  {
    assert ms[..i + 1][..i] == ms[..i];
  }

  /** An element of the joined list comes from some element of the list, and every element of
      what f gives for a member is in it. */
  lemma {:induction false} ConcatHas<T, U>(ms: seq<T>, f: T -> seq<U>, x: U)
    ensures x in Concat(ms, f) <==> exists m :: m in ms && x in f(m)
    decreases |ms|
  {
    if ms != [] {
      var init, last := ms[..|ms| - 1], ms[|ms| - 1];
      ConcatHas(init, f, x);
      assert ms == init + [last];
      if exists m :: m in ms && x in f(m) {
        var m :| m in ms && x in f(m);
        if m != last {
          assert m in init;
        }
      }
    }
  }

  /** Reorderings hold the same elements. */
  lemma SameMembers<T>(ms: seq<T>, ns: seq<T>)
    requires multiset(ms) == multiset(ns)
    ensures forall m :: m in ms <==> m in ns
  {
    forall m ensures m in ms <==> m in ns {
      assert m in ms <==> m in multiset(ms);
      assert m in ns <==> m in multiset(ns);
    }
  }

  /** Lists holding the same elements, in whatever order and number, join to lists holding the
      same elements. */
  lemma ConcatSame<T, U>(ms: seq<T>, ns: seq<T>, f: T -> seq<U>)
    requires forall m :: m in ms <==> m in ns
    ensures forall x :: x in Concat(ms, f) <==> x in Concat(ns, f)
  {
    forall x ensures x in Concat(ms, f) <==> x in Concat(ns, f) {
      ConcatHas(ms, f, x);
      ConcatHas(ns, f, x);
    }
  }

  /** Joins of equally long pieces are equally long. */
  lemma {:induction false} ConcatLength<T, U, V>(ms: seq<T>, f: T -> seq<U>, g: T -> seq<V>)
    requires forall i :: 0 <= i < |ms| ==> |f(ms[i])| == |g(ms[i])|
    ensures |Concat(ms, f)| == |Concat(ms, g)|
    decreases |ms|
  {
    if ms != [] {
      ConcatLength(ms[..|ms| - 1], f, g);
    }
  }

  /** A total of piece lengths is the length of the join. */
  lemma {:induction false} SumLength<T, U>(ms: seq<T>, f: T -> nat, g: T -> seq<U>)
    requires forall i :: 0 <= i < |ms| ==> f(ms[i]) == |g(ms[i])|
    ensures Sum(ms, f) == |Concat(ms, g)|
    decreases |ms|
  {
    if ms != [] {
      SumLength(ms[..|ms| - 1], f, g);
    }
  }

  // ----- Maximum and window -----

  /** The largest of init and the scores. */
  function Best(init: int, xs: seq<int>): (r: int)
    ensures r >= init && forall i :: 0 <= i < |xs| ==> r >= xs[i]
    ensures r == init || r in xs
    decreases |xs|
  {
    if xs == [] then init
    else
      var b := Best(init, xs[..|xs| - 1]);
      assert forall x :: x in xs[..|xs| - 1] ==> x in xs;
      if xs[|xs| - 1] > b then xs[|xs| - 1] else b
  }

  /** The best of a join is at least every score of every piece. */
  lemma BestOver<T>(init: int, ms: seq<T>, f: T -> seq<int>, m: T, x: int)
    requires m in ms && |f(m)| == 1 && f(m)[0] == x
    ensures Concat(ms, f) != [] && Best(init, Concat(ms, f)) >= x
  {
    assert x in f(m);
    ConcatHas(ms, f, x);
  }

  /** In a join of pieces of at most one score, every score is the score of some element. */
  lemma PieceOf<T>(ms: seq<T>, f: T -> seq<int>, x: int)
    requires forall m :: |f(m)| <= 1
    requires x in Concat(ms, f)
    ensures exists m :: m in ms && |f(m)| == 1 && f(m)[0] == x
  {
    ConcatHas(ms, f, x);
    var m :| m in ms && x in f(m);
  }

  /** The maximum of a non-empty join of pieces of at most one score is the score of some
      element. */
  lemma BestIsPiece<T>(ms: seq<T>, f: T -> seq<int>)
    requires forall m :: |f(m)| <= 1
    requires Concat(ms, f) != []
    ensures exists m :: m in ms && |f(m)| == 1 && f(m)[0] == Best(Concat(ms, f)[0], Concat(ms, f))
  {
    var xs := Concat(ms, f);
    var v := Best(xs[0], xs);
    assert v in xs;
    PieceOf(ms, f, v);
  }

  /** The fail-hard result: the value cut to the window [alpha, beta]. */
  function Clamp(v: int, alpha: int, beta: int): int {
    if v >= beta then beta else if v <= alpha then alpha else v
  }

  /** The best is determined by the scores present, not by their order or repetitions. */
  lemma BestSame(init: int, xs: seq<int>, ys: seq<int>)
    requires forall x :: x in xs <==> x in ys
    ensures Best(init, xs) == Best(init, ys)
  {
    var a, b := Best(init, xs), Best(init, ys);
    if a != init {
      var i :| 0 <= i < |ys| && ys[i] == a;
    }
    if b != init {
      var i :| 0 <= i < |xs| && xs[i] == b;
    }
  }

  /** Starting from the larger of a and e is taking the larger of a and the best from e. */
  lemma BestFrom(a: int, e: int, xs: seq<int>)
    ensures Best(if e > a then e else a, xs) == (var b := Best(e, xs); if b > a then b else a)
  {
    var m := if e > a then e else a;
    var l := Best(m, xs);
    if l != m {
      var i :| 0 <= i < |xs| && xs[i] == l;
    }
    if Best(e, xs) != e {
      var i :| 0 <= i < |xs| && xs[i] == Best(e, xs);
    }
  }

  /** The best of a non-empty list, started from a, is the larger of a and the list's maximum. */
  lemma BestOfFirst(a: int, xs: seq<int>)
    requires xs != []
    ensures Best(a, xs) == (var b := Best(xs[0], xs); if b > a then b else a)
  {
    var l, b := Best(a, xs), Best(xs[0], xs);
    if l != a {
      var i :| 0 <= i < |xs| && xs[i] == l;
    }
    if b != xs[0] {
      var i :| 0 <= i < |xs| && xs[i] == b;
    }
  }

  /** One more score: the best of the longer list. */
  lemma BestStep(init: int, xs: seq<int>, ys: seq<int>)
    requires |ys| <= 1
    ensures Best(init, xs + ys) == if ys == [] then Best(init, xs) else
      (var b := Best(init, xs); if ys[0] > b then ys[0] else b)
  {
    if ys == [] {
      assert xs + ys == xs;
    } else {
      assert (xs + ys)[..|xs + ys| - 1] == xs;
    }
  }

  // ----- The moves a node plays -----

  /** The moves makeMove keeps: playable, a capture when only captures are asked for, and not
      leaving the mover's king attacked. */
  ghost predicate Kept(p: Position, m: Move, capturesOnly: bool)
    requires Valid(p)
  {
    Playable(p, m) && (!capturesOnly || IsCapture(m)) && Legal(p, m)
  }

  /** A move, as a list of itself when it is kept and of nothing otherwise. */
  ghost function Keeper(p: Position, capturesOnly: bool): Move -> seq<Move>
    requires Valid(p)
  {
    (m: Move) => if Kept(p, m, capturesOnly) then [m] else []
  }

  /** The kept moves of a list, in order. */
  ghost function KeptMoves(p: Position, ms: seq<Move>, capturesOnly: bool): seq<Move>
    requires Valid(p)
  {
    Concat(ms, Keeper(p, capturesOnly))
  }

  /** The kept moves are the moves of the list that makeMove keeps. */
  lemma KeptMovesAre(p: Position, ms: seq<Move>, capturesOnly: bool)
    requires Valid(p)
    ensures forall m :: m in KeptMoves(p, ms, capturesOnly) <==> m in ms && Kept(p, m, capturesOnly)
  {
    forall m ensures m in KeptMoves(p, ms, capturesOnly) <==> m in ms && Kept(p, m, capturesOnly) {
      ConcatHas(ms, Keeper(p, capturesOnly), m);
      if m in KeptMoves(p, ms, capturesOnly) {
        var n :| n in ms && m in Keeper(p, capturesOnly)(n);
      }
    }
  }

  // ----- quiescenceSearch -----

  /** The score of one move in the quiescence search: the negated value of the position it leads
      to when it is a kept capture, nothing otherwise. */
  ghost function QScore(p: Position, m: Move, fuel: nat): seq<int>
    requires Valid(p) && fuel > 0
    decreases fuel, 0, 0
  {
    if Kept(p, m, true) then [-QValue(Apply(p, m), fuel - 1)] else []
  }

  /** The scores of the kept captures of a list, in list order. */
  ghost function QScores(p: Position, ms: seq<Move>, fuel: nat): seq<int>
    requires Valid(p) && fuel > 0
    decreases fuel, 0, |ms|
  {
    if ms == [] then [] else QScores(p, ms[..|ms| - 1], fuel) + QScore(p, ms[|ms| - 1], fuel)
  }

  /** The quiescence value: the static evaluation (standing pat) or, when better, the best
      capture; fuel bounds the depth of the capture tree (QBounded says it is enough). */
  ghost function QValue(p: Position, fuel: nat): int
    requires Valid(p)
    decreases fuel, 1
  {
    if fuel == 0 then Evaluation(p)
    else Best(Evaluation(p), QScores(p, GenMoves(p), fuel))
  }

  /** The capture tree below p is at most fuel deep and every move list of it fits in the
      256 moves of a list. */
  ghost predicate QBounded(p: Position, fuel: nat)
    requires Valid(p)
    decreases fuel
  {
    fuel > 0 && |GenMoves(p)| <= 256 &&
    forall m :: m in GenMoves(p) && Kept(p, m, true) ==> QBounded(Apply(p, m), fuel - 1)
  }

  /** QScore as a function of the move. */
  ghost function QScorer(p: Position, fuel: nat): Move -> seq<int>
    requires Valid(p) && fuel > 0
  {
    (m: Move) => QScore(p, m, fuel)
  }

  /** The quiescence scores of a list are the join of the scores of its moves. */
  lemma {:induction false} QScoresJoin(p: Position, ms: seq<Move>, fuel: nat)
    requires Valid(p) && fuel > 0
    ensures QScores(p, ms, fuel) == Concat(ms, QScorer(p, fuel))
    decreases |ms|
  {
    if ms != [] {
      QScoresJoin(p, ms[..|ms| - 1], fuel);
    }
  }

  /** The piece of one move: a single score for a kept capture, nothing otherwise. */
  lemma QScoreShape(p: Position, m: Move, fuel: nat)
    requires Valid(p) && fuel > 0
    ensures |QScorer(p, fuel)(m)| == |Keeper(p, true)(m)| <= 1
    ensures Kept(p, m, true) ==> QScorer(p, fuel)(m)[0] == -QValue(Apply(p, m), fuel - 1)
  {}

  /** Standing pat: the quiescence value is never below the static evaluation, and with no
      kept capture it is the evaluation. */
  lemma {:induction false} StandPat(p: Position, fuel: nat)
    requires Valid(p) && fuel > 0
    ensures QValue(p, fuel) >= Evaluation(p)
    ensures KeptMoves(p, GenMoves(p), true) == [] ==> QValue(p, fuel) == Evaluation(p)
  {
    var ms, qs := GenMoves(p), QScorer(p, fuel);
    QScoresJoin(p, ms, fuel);
    forall i | 0 <= i < |ms| ensures |qs(ms[i])| == |Keeper(p, true)(ms[i])| {
      QScoreShape(p, ms[i], fuel);
    }
    ConcatLength(ms, qs, Keeper(p, true));
  }

  /** The quiescence value is at least the score of every kept capture. */
  lemma CaptureBelow(p: Position, fuel: nat, m: Move)
    requires Valid(p) && fuel > 0 && m in GenMoves(p) && Kept(p, m, true)
    ensures QValue(p, fuel) >= -QValue(Apply(p, m), fuel - 1)
  {
    QValueIsBest(p, fuel);
    var v := QScoreKept(p, m, fuel);
    BestOver(Evaluation(p), GenMoves(p), QScorer(p, fuel), m, v);
  }

  /** A kept capture scores exactly the negated value v of the position it leads to. */
  lemma QScoreKept(p: Position, m: Move, fuel: nat) returns (v: int)
    requires Valid(p) && fuel > 0 && Kept(p, m, true)
    ensures v == -QValue(Apply(p, m), fuel - 1)
    ensures |QScorer(p, fuel)(m)| == 1 && QScorer(p, fuel)(m)[0] == v
  {
    v := -QValue(Apply(p, m), fuel - 1);
    QScoreShape(p, m, fuel);
  }

  /** Above the leaves, the quiescence value is the best of the evaluation and the capture scores. */
  lemma QValueIsBest(p: Position, fuel: nat)
    requires Valid(p) && fuel > 0
    ensures QValue(p, fuel) == Best(Evaluation(p), Concat(GenMoves(p), QScorer(p, fuel)))
  {
    QScoresJoin(p, GenMoves(p), fuel);
  }

  // ----- negamax -----

  /** negamax's inCheck: the king of the side to move is attacked by the other side. A side
      without a king is taken not to be in check. */
  ghost predicate InCheck(p: Position)
    requires Valid(p)
  {
    var king := p.bitboards[BoardOf(p.side, King)];
    king != 0 && Attacked(p, Lsb(king), 1 - p.side)
  }

  /** The depth negamax gives the moves of a node: one less, or the same when the side to move
      is in check (the in-check extension). */
  ghost function ChildDepth(p: Position, depth: int): int
    requires Valid(p)
  {
    if InCheck(p) then depth else depth - 1
  }

  /** The score of one move in negamax: the negated value one ply deeper when the move is kept,
      nothing otherwise. */
  ghost function NScore(p: Position, m: Move, depth: int, ply: int, fuel: nat): seq<int>
    requires Valid(p) && fuel > 0
    decreases fuel, 0, 0
  {
    if Kept(p, m, false) then [-NValue(Apply(p, m), depth, ply + 1, fuel - 1)] else []
  }

  /** The scores of the kept moves of a list, in list order. */
  ghost function NScores(p: Position, ms: seq<Move>, depth: int, ply: int, fuel: nat): seq<int>
    requires Valid(p) && fuel > 0
    decreases fuel, 0, |ms|
  {
    if ms == [] then []
    else NScores(p, ms[..|ms| - 1], depth, ply, fuel) + NScore(p, ms[|ms| - 1], depth, ply, fuel)
  }

  /** The negamax value of p at the given depth and ply: the quiescence value at depth 0; the
      mate score (less the plies already played) or 0 for stalemate when no move is kept; the
      best move score otherwise. */
  ghost function NValue(p: Position, depth: int, ply: int, fuel: nat): int
    requires Valid(p)
    decreases fuel, 2
  {
    if fuel == 0 then 0
    else if depth == 0 then QValue(p, fuel)
    else
      var xs := NScores(p, GenMoves(p), ChildDepth(p, depth), ply, fuel);
      if xs == [] then (if InCheck(p) then MateScore + ply else 0)
      else Best(xs[0], xs)
  }

  /** NScore as a function of the move. */
  ghost function NScorer(p: Position, depth: int, ply: int, fuel: nat): Move -> seq<int>
    requires Valid(p) && fuel > 0
  {
    (m: Move) => NScore(p, m, depth, ply, fuel)
  }

  /** The negamax scores of a list are the join of the scores of its moves. */
  lemma {:induction false} NScoresJoin(p: Position, ms: seq<Move>, depth: int, ply: int, fuel: nat)
    requires Valid(p) && fuel > 0
    ensures NScores(p, ms, depth, ply, fuel) == Concat(ms, NScorer(p, depth, ply, fuel))
    decreases |ms|
  {
    if ms != [] {
      NScoresJoin(p, ms[..|ms| - 1], depth, ply, fuel);
    }
  }

  /** The search tree below p is at most fuel deep and every move list of it fits. */
  ghost predicate NBounded(p: Position, depth: int, fuel: nat)
    requires Valid(p)
    decreases fuel
  {
    fuel > 0 &&
    (depth == 0 ==> QBounded(p, fuel)) &&
    (depth != 0 ==>
      |GenMoves(p)| <= 256 &&
      forall m :: m in GenMoves(p) && Kept(p, m, false) ==>
        NBounded(Apply(p, m), ChildDepth(p, depth), fuel - 1))
  }

  /** No generated move is kept: the node is mate or stalemate. */
  ghost predicate NoLegalMove(p: Position)
    requires Valid(p)
  {
    KeptMoves(p, GenMoves(p), false) == []
  }

  /** The piece of one move: a single score for a kept move, nothing otherwise. */
  lemma NScoreShape(p: Position, m: Move, depth: int, ply: int, fuel: nat)
    requires Valid(p) && fuel > 0
    ensures |NScorer(p, depth, ply, fuel)(m)| == |Keeper(p, false)(m)| <= 1
    ensures Kept(p, m, false) ==>
      NScorer(p, depth, ply, fuel)(m)[0] == -NValue(Apply(p, m), depth, ply + 1, fuel - 1)
  {}

  /** There is one negamax score per kept move. */
  lemma NScoresCount(p: Position, ms: seq<Move>, depth: int, ply: int, fuel: nat)
    requires Valid(p) && fuel > 0
    ensures |NScores(p, ms, depth, ply, fuel)| == |KeptMoves(p, ms, false)|
  {
    var ns := NScorer(p, depth, ply, fuel);
    NScoresJoin(p, ms, depth, ply, fuel);
    forall i | 0 <= i < |ms| ensures |ns(ms[i])| == |Keeper(p, false)(ms[i])| {
      NScoreShape(p, ms[i], depth, ply, fuel);
    }
    ConcatLength(ms, ns, Keeper(p, false));
  }

  /** A node with no kept move scores the mate score less its ply when in check, and 0 for
      stalemate. */
  lemma MateOrStalemate(p: Position, depth: int, ply: int, fuel: nat)
    requires Valid(p) && fuel > 0 && depth != 0 && NoLegalMove(p)
    ensures NValue(p, depth, ply, fuel) == if InCheck(p) then MateScore + ply else 0
  {
    NScoresCount(p, GenMoves(p), ChildDepth(p, depth), ply, fuel);
  }

  /** A node with a kept move scores the maximum of its move scores. */
  lemma NodeIsBest(p: Position, depth: int, ply: int, fuel: nat)
    requires Valid(p) && fuel > 0 && depth != 0 && !NoLegalMove(p)
    ensures var xs := Concat(GenMoves(p), NScorer(p, ChildDepth(p, depth), ply, fuel));
      xs != [] && NValue(p, depth, ply, fuel) == Best(xs[0], xs)
  {
    var d := ChildDepth(p, depth);
    NScoresJoin(p, GenMoves(p), d, ply, fuel);
    NScoresCount(p, GenMoves(p), d, ply, fuel);
  }

  /** A node with a kept move scores as well as the best of them: some kept move reaches the
      value exactly... */
  lemma BestMoveExists(p: Position, depth: int, ply: int, fuel: nat)
    requires Valid(p) && fuel > 0 && depth != 0 && !NoLegalMove(p)
    ensures exists m :: m in GenMoves(p) && Kept(p, m, false) &&
                        NValue(p, depth, ply, fuel) == -NValue(Apply(p, m), ChildDepth(p, depth), ply + 1, fuel - 1)
  {
    var best := BestScored(p, depth, ply, fuel);
    var v := NScoreHit(p, best, ChildDepth(p, depth), ply, fuel);
  }

  /** A node with a kept move has a move whose score is the node's value. */
  lemma BestScored(p: Position, depth: int, ply: int, fuel: nat) returns (best: Move)
    requires Valid(p) && fuel > 0 && depth != 0 && !NoLegalMove(p)
    ensures best in GenMoves(p)
    ensures |NScorer(p, ChildDepth(p, depth), ply, fuel)(best)| == 1
    ensures NScorer(p, ChildDepth(p, depth), ply, fuel)(best)[0] == NValue(p, depth, ply, fuel)
  {
    var d := ChildDepth(p, depth);
    var ns := NScorer(p, d, ply, fuel);
    NodeIsBest(p, depth, ply, fuel);
    NScorePieces(p, d, ply, fuel);
    BestIsPiece(GenMoves(p), ns);
    best :| best in GenMoves(p) && |ns(best)| == 1 && ns(best)[0] == NValue(p, depth, ply, fuel);
  }

  /** Every move has at most one negamax score. */
  lemma NScorePieces(p: Position, depth: int, ply: int, fuel: nat)
    requires Valid(p) && fuel > 0
    ensures forall m :: |NScorer(p, depth, ply, fuel)(m)| <= 1
  {
    forall m ensures |NScorer(p, depth, ply, fuel)(m)| <= 1 {
      NScoreShape(p, m, depth, ply, fuel);
    }
  }

  /** A move with a negamax score is kept, and the score is the negated value v it leads to. */
  lemma NScoreHit(p: Position, m: Move, depth: int, ply: int, fuel: nat) returns (v: int)
    requires Valid(p) && fuel > 0 && |NScorer(p, depth, ply, fuel)(m)| == 1
    ensures Kept(p, m, false) && v == -NValue(Apply(p, m), depth, ply + 1, fuel - 1)
    ensures NScorer(p, depth, ply, fuel)(m)[0] == v
  {
    NScoreShape(p, m, depth, ply, fuel);
    v := -NValue(Apply(p, m), depth, ply + 1, fuel - 1);
  }

  /** ...and no kept move scores more. */
  lemma MoveBelow(p: Position, depth: int, ply: int, fuel: nat, m: Move)
    requires Valid(p) && fuel > 0 && depth != 0 && m in GenMoves(p) && Kept(p, m, false)
    ensures NValue(p, depth, ply, fuel) >= -NValue(Apply(p, m), ChildDepth(p, depth), ply + 1, fuel - 1)
  {
    HasLegalMove(p, m);
    NodeIsBest(p, depth, ply, fuel);
    var v := NScoreKept(p, m, ChildDepth(p, depth), ply, fuel);
    var xs := Concat(GenMoves(p), NScorer(p, ChildDepth(p, depth), ply, fuel));
    BestOver(xs[0], GenMoves(p), NScorer(p, ChildDepth(p, depth), ply, fuel), m, v);
  }

  /** A kept move scores exactly the negated value v of the position it leads to. */
  lemma NScoreKept(p: Position, m: Move, depth: int, ply: int, fuel: nat) returns (v: int)
    requires Valid(p) && fuel > 0 && Kept(p, m, false)
    ensures v == -NValue(Apply(p, m), depth, ply + 1, fuel - 1)
    ensures |NScorer(p, depth, ply, fuel)(m)| == 1 && NScorer(p, depth, ply, fuel)(m)[0] == v
  {
    v := -NValue(Apply(p, m), depth, ply + 1, fuel - 1);
    NScoreShape(p, m, depth, ply, fuel);
  }

  /** A generated move that makeMove keeps rules out mate and stalemate. */
  lemma HasLegalMove(p: Position, m: Move)
    requires Valid(p) && m in GenMoves(p) && Kept(p, m, false)
    ensures !NoLegalMove(p)
  {
    ConcatHas(GenMoves(p), Keeper(p, false), m);
  }

  // ----- perftDriver -----

  /** The count of one move: that of the position it leads to when it is kept, 0 otherwise. */
  ghost function PerftOf(p: Position, m: Move, depth: nat): nat
    requires Valid(p) && depth > 0
    decreases depth, 0, 0
  {
    if Kept(p, m, false) then PerftCount(Apply(p, m), depth - 1) else 0
  }

  /** The counts of the kept moves of a list. */
  ghost function PerftSum(p: Position, ms: seq<Move>, depth: nat): nat
    requires Valid(p) && depth > 0
    decreases depth, 0, |ms|
  {
    if ms == [] then 0 else PerftSum(p, ms[..|ms| - 1], depth) + PerftOf(p, ms[|ms| - 1], depth)
  }

  /** perftDriver's count: 1 at depth 0, otherwise the counts of the positions the kept moves
      lead to, one depth less. */
  ghost function PerftCount(p: Position, depth: nat): nat
    requires Valid(p)
    decreases depth, 1
  {
    if depth == 0 then 1 else PerftSum(p, GenMoves(p), depth)
  }

  /** Every move list of the tree below p, to the given depth, fits in a list. */
  ghost predicate PerftBounded(p: Position, depth: nat)
    requires Valid(p)
    decreases depth
  {
    depth != 0 ==>
      |GenMoves(p)| <= 256 &&
      forall m :: m in GenMoves(p) && Kept(p, m, false) ==> PerftBounded(Apply(p, m), depth - 1)
  }

  /** PerftOf as a function of the move. */
  ghost function PerftCounter(p: Position, depth: nat): Move -> nat
    requires Valid(p) && depth > 0
  {
    (m: Move) => PerftOf(p, m, depth)
  }

  /** The perft count of a list is the total of the counts of its moves. */
  lemma {:induction false} PerftSumJoin(p: Position, ms: seq<Move>, depth: nat)
    requires Valid(p) && depth > 0
    ensures PerftSum(p, ms, depth) == Sum(ms, PerftCounter(p, depth))
    decreases |ms|
  {
    if ms != [] {
      PerftSumJoin(p, ms[..|ms| - 1], depth);
    }
  }

  /** One ply from the leaves a move counts 1 when it is kept and 0 otherwise. */
  lemma LeafCount(p: Position, m: Move)
    requires Valid(p)
    ensures PerftCounter(p, 1)(m) == |Keeper(p, false)(m)|
  {
    if Kept(p, m, false) {
      assert PerftCount(Apply(p, m), 0) == 1;
    }
  }

  /** At depth 1 perft counts the legal moves. */
  lemma PerftOne(p: Position)
    requires Valid(p)
    ensures PerftCount(p, 1) == |KeptMoves(p, GenMoves(p), false)|
  {
    var ms, pc := GenMoves(p), PerftCounter(p, 1);
    PerftSumJoin(p, ms, 1);
    forall i | 0 <= i < |ms| ensures pc(ms[i]) == |Keeper(p, false)(ms[i])| {
      LeafCount(p, ms[i]);
    }
    SumLength(ms, pc, Keeper(p, false));
  }

  // ----- The searches' loops, move by move -----

  /** What one move does to a search loop whose running alpha is a, below the window top beta,
      given the move's score s (none when the move is not kept): the loop cuts when the score
      reaches beta, and otherwise alpha is raised to the score when that is higher. */
  predicate LoopStep(s: seq<int>, a: int, beta: int, cut: bool, raised: int) {
    |s| <= 1 &&
    (cut <==> |s| == 1 && s[0] >= beta) &&
    (!cut ==> raised == if |s| == 1 && s[0] > a then s[0] else a)
  }

  /** Raising the running alpha move by move keeps it the best of the scores seen so far. */
  lemma WindowStep<T>(init: int, ms: seq<T>, i: int, f: T -> seq<int>, a: int, beta: int, cut: bool, raised: int)
    requires 0 <= i < |ms| && a == Best(init, Concat(ms[..i], f))
    requires LoopStep(f(ms[i]), a, beta, cut, raised) && !cut
    ensures raised == Best(init, Concat(ms[..i + 1], f))
  {
    ConcatStep(ms, i, f);
    BestStep(init, Concat(ms[..i], f), f(ms[i]));
  }

  /** What the search loops do with the result r of a reply search: the move's score is -r; it
      cuts when the score reaches beta, and otherwise alpha is raised to the score when higher. */
  function Decide(r: int, a: int, beta: int): (bool, int) {
    var score := -r;
    if score >= beta then (true, a) else if score > a then (false, score) else (false, a)
  }

  /** The score the board search gives a kept move decides the loop as the move's exact score
      does: the reply search ran with the window [lo, hi] = [-beta, -a], and its result r is the
      value v of the position the move leads to cut to that window, or (mate or stalemate) v
      itself. */
  lemma ChildStep(s: seq<int>, a: int, beta: int, v: int, r: int, lo: int, hi: int)
    requires |s| == 1 && s[0] == -v && lo == -beta && hi == -a && a < beta
    requires r == v || r == Clamp(v, lo, hi)
    ensures LoopStep(s, a, beta, Decide(r, a, beta).0, Decide(r, a, beta).1)
  {}

  /** One move of a search loop: the count of kept moves goes up by one for a kept move. */
  lemma KeptCount(p: Position, ms: seq<Move>, i: int, n: int, kept: bool)
    requires Valid(p) && 0 <= i < |ms| && n == |KeptMoves(p, ms[..i], false)| && kept == Kept(p, ms[i], false)
    ensures kept ==> n + 1 == |KeptMoves(p, ms[..i + 1], false)|
    ensures !kept ==> n == |KeptMoves(p, ms[..i + 1], false)|
  {
    ConcatStep(ms, i, Keeper(p, false));
  }

  /** Lists holding the same elements join to lists that are empty together. */
  lemma ConcatEmpty<T, U>(ms: seq<T>, ns: seq<T>, f: T -> seq<U>)
    requires forall m :: m in ms <==> m in ns
    ensures Concat(ms, f) == [] <==> Concat(ns, f) == []
  {
    var xs, ys := Concat(ms, f), Concat(ns, f);
    if xs != [] {
      ConcatHas(ms, f, xs[0]);
      ConcatHas(ns, f, xs[0]);
    }
    if ys != [] {
      ConcatHas(ms, f, ys[0]);
      ConcatHas(ns, f, ys[0]);
    }
  }

  /** A reordering of the generated moves keeps a move exactly when the generated list does. */
  lemma KeptSame(p: Position, ms: seq<Move>)
    requires Valid(p) && forall m :: m in ms <==> m in GenMoves(p)
    ensures KeptMoves(p, ms, false) == [] <==> NoLegalMove(p)
  {
    ConcatEmpty(ms, GenMoves(p), Keeper(p, false));
  }

  // ----- The quiescence loop -----

  /** Standing pat at or above beta: the quiescence value cut to the window is beta. */
  lemma StandPatCut(p: Position, fuel: nat, e: int, alpha: int, beta: int)
    requires Valid(p) && fuel > 0 && e == Evaluation(p) && e >= beta && alpha < beta
    ensures Clamp(QValue(p, fuel), alpha, beta) == beta
  {
    StandPat(p, fuel);
  }

  /** A generated move is playable, and the capture tree below it is bounded when it is kept. */
  lemma QuiescenceChild(p: Position, fuel: nat, m: Move)
    requires Valid(p) && QBounded(p, fuel) && m in GenMoves(p)
    ensures Playable(p, m) && fuel > 0 && (Kept(p, m, true) ==> QBounded(Apply(p, m), fuel - 1))
  {
    GenMovesSound(p);
  }

  /** A kept capture searched with the window negated, its reply cut to that window, decides
      the quiescence loop as its score does. */
  lemma QuiescenceReply(p: Position, m: Move, fuel: nat, child: Position, a: int, beta: int, lo: int, hi: int, r: int)
    requires Valid(p) && fuel > 0 && Kept(p, m, true) && child == Apply(p, m)
    requires lo == -beta && hi == -a && a < beta && r == Clamp(QValue(child, fuel - 1), lo, hi)
    ensures LoopStep(QScorer(p, fuel)(m), a, beta, Decide(r, a, beta).0, Decide(r, a, beta).1)
  {
    QScoreShape(p, m, fuel);
    ChildStep(QScorer(p, fuel)(m), a, beta, QValue(child, fuel - 1), r, lo, hi);
  }

  /** A move that is not a kept capture leaves the quiescence loop as it is. */
  lemma QuiescenceSkip(p: Position, m: Move, fuel: nat, a: int, beta: int)
    requires Valid(p) && fuel > 0 && !Kept(p, m, true)
    ensures LoopStep(QScorer(p, fuel)(m), a, beta, false, a)
  {
    QScoreShape(p, m, fuel);
  }

  /** A capture whose score reaches beta puts the quiescence value at or above beta. */
  lemma QuiescenceCut(p: Position, fuel: nat, m: Move, a: int, beta: int, raised: int)
    requires Valid(p) && fuel > 0 && m in GenMoves(p)
    requires LoopStep(QScorer(p, fuel)(m), a, beta, true, raised)
    ensures QValue(p, fuel) >= beta
  {
    QScoreShape(p, m, fuel);
    CaptureBelow(p, fuel, m);
  }

  /** A value at or above beta is cut to beta. */
  lemma ClampHigh(v: int, alpha: int, beta: int)
    requires v >= beta && alpha < beta
    ensures Clamp(v, alpha, beta) == beta
  {}

  /** The quiescence loop over a reordering of the generated moves, run to the end from the
      evaluation e (or alpha when that is higher) without reaching beta, ends on the quiescence
      value cut to the window. */
  lemma QuiescenceWindow(p: Position, fuel: nat, ms: seq<Move>, e: int, alpha: int, beta: int, start: int, a: int)
    requires Valid(p) && fuel > 0 && alpha < beta && forall m :: m in ms <==> m in GenMoves(p)
    requires e == Evaluation(p) && start == (if e > alpha then e else alpha)
    requires a == Best(start, Concat(ms, QScorer(p, fuel))) && a < beta
    ensures a == Clamp(QValue(p, fuel), alpha, beta)
  {
    var qs := QScorer(p, fuel);
    ConcatSame(ms, GenMoves(p), qs);
    BestSame(start, Concat(ms, qs), Concat(GenMoves(p), qs));
    BestFrom(alpha, e, Concat(GenMoves(p), qs));
    QScoresJoin(p, GenMoves(p), fuel);
  }

  // ----- The negamax loop -----

  /** What negamax returns for a position searched with the window [alpha, beta]: the mate or
      stalemate score when no move is legal, and otherwise the negamax value cut to the window. */
  ghost function SearchValue(p: Position, depth: int, ply: int, fuel: nat, alpha: int, beta: int): int
    requires Valid(p)
  {
    if depth != 0 && NoLegalMove(p) then NValue(p, depth, ply, fuel)
    else Clamp(NValue(p, depth, ply, fuel), alpha, beta)
  }

  /** What the negamax loop over a reordering ms of the generated moves found: after a cut, a
      legal move scoring beta or more exists; otherwise legalMoves counts the kept moves and the
      running alpha, still below beta, is the best of alpha and their scores. */
  ghost predicate LoopFound(p: Position, depth: int, ply: int, fuel: nat, ms: seq<Move>, alpha: int, beta: int,
                            cut: bool, legalMoves: int, a: int)
    requires Valid(p) && fuel > 0
  {
    (cut ==> !NoLegalMove(p) && NValue(p, depth, ply, fuel) >= beta) &&
    (!cut ==> legalMoves == |KeptMoves(p, ms, false)| && a < beta &&
              a == Best(alpha, Concat(ms, NScorer(p, ChildDepth(p, depth), ply, fuel))))
  }

  /** A move of the root position that the engine keeps and whose score (the negated value of
      its reply, searched at ply 1) is v. */
  ghost predicate RootBest(p: Position, depth: int, fuel: nat, m: Move, v: int)
    requires Valid(p) && fuel > 0
  {
    m in GenMoves(p) && Kept(p, m, false) && v == -NValue(Apply(p, m), ChildDepth(p, depth), 1, fuel - 1)
  }

  /** At depth 0 negamax is the quiescence search. */
  lemma NegamaxLeaf(p: Position, ply: int, fuel: nat, alpha: int, beta: int, best: Move)
    requires Valid(p) && NBounded(p, 0, fuel)
    ensures QBounded(p, fuel) && SearchResult(p, 0, ply, fuel, alpha, beta, Clamp(QValue(p, fuel), alpha, beta), best)
  {}

  /** The depth negamax searches the children at: one more ply when in check, less one. */
  lemma ExtendedDepth(p: Position, depth: int, inCheck: bool, childDepth: int)
    requires Valid(p) && inCheck == InCheck(p) && childDepth == (if inCheck then depth + 1 else depth) - 1
    ensures childDepth == ChildDepth(p, depth)
  {}

  /** A generated move is playable, and the tree below it is bounded when it is kept. */
  lemma NegamaxChild(p: Position, depth: int, fuel: nat, m: Move)
    requires Valid(p) && NBounded(p, depth, fuel) && depth != 0 && m in GenMoves(p)
    ensures Playable(p, m) && fuel > 0 &&
      (Kept(p, m, false) ==> NBounded(Apply(p, m), ChildDepth(p, depth), fuel - 1))
  {
    GenMovesSound(p);
  }

  /** A kept move searched with the window negated decides the negamax loop as its score does. */
  lemma NegamaxReply(p: Position, m: Move, depth: int, ply: int, fuel: nat,
                     a: int, beta: int, lo: int, hi: int, r: int)
    requires Valid(p) && fuel > 0 && Kept(p, m, false)
    requires lo == -beta && hi == -a && a < beta && r == SearchValue(Apply(p, m), depth, ply + 1, fuel - 1, lo, hi)
    ensures LoopStep(NScorer(p, depth, ply, fuel)(m), a, beta, Decide(r, a, beta).0, Decide(r, a, beta).1)
  {
    var v := NScoreKept(p, m, depth, ply, fuel);
    ChildStep(NScorer(p, depth, ply, fuel)(m), a, beta, -v, r, lo, hi);
  }

  /** A move that is not kept leaves the negamax loop as it is. */
  lemma NegamaxSkip(p: Position, m: Move, depth: int, ply: int, fuel: nat, a: int, beta: int)
    requires Valid(p) && fuel > 0 && !Kept(p, m, false)
    ensures LoopStep(NScorer(p, depth, ply, fuel)(m), a, beta, false, a)
  {
    NScoreShape(p, m, depth, ply, fuel);
  }

  /** At the root, a generated move that raises alpha is the best move so far. */
  lemma NegamaxRaise(p: Position, depth: int, ply: int, fuel: nat, m: Move, a: int, beta: int, raised: int)
    requires Valid(p) && fuel > 0 && m in GenMoves(p) && ply == 0
    requires LoopStep(NScorer(p, ChildDepth(p, depth), ply, fuel)(m), a, beta, false, raised) && raised != a
    ensures RootBest(p, depth, fuel, m, raised)
  {
    NScoreShape(p, m, ChildDepth(p, depth), ply, fuel);
  }

  /** A move whose score reaches beta is kept, so the node has a legal move, and puts the
      negamax value at or above beta. */
  lemma NegamaxCut(p: Position, depth: int, ply: int, fuel: nat, m: Move, a: int, beta: int, raised: int,
                   ms: seq<Move>, alpha: int, legalMoves: int)
    requires Valid(p) && fuel > 0 && depth != 0 && m in GenMoves(p)
    requires LoopStep(NScorer(p, ChildDepth(p, depth), ply, fuel)(m), a, beta, true, raised)
    ensures LoopFound(p, depth, ply, fuel, ms, alpha, beta, true, legalMoves, a)
  {
    NScoreShape(p, m, ChildDepth(p, depth), ply, fuel);
    MoveBelow(p, depth, ply, fuel, m);
    KeptMovesAre(p, GenMoves(p), false);
    assert m in KeptMoves(p, GenMoves(p), false);
  }

  /** The negamax loop run to the end of the list without a cut. */
  lemma NegamaxDone(p: Position, depth: int, ply: int, fuel: nat, ms: seq<Move>, alpha: int, beta: int,
                    legalMoves: int, a: int)
    requires Valid(p) && fuel > 0
    requires legalMoves == |KeptMoves(p, ms[..|ms|], false)| && a < beta
    requires a == Best(alpha, Concat(ms[..|ms|], NScorer(p, ChildDepth(p, depth), ply, fuel)))
    ensures LoopFound(p, depth, ply, fuel, ms, alpha, beta, false, legalMoves, a)
  {
    assert ms[..|ms|] == ms;
  }

  /** The negamax loop over a reordering of the generated moves, run to the end from alpha
      without reaching beta, ends on the negamax value cut to the window when a move was kept. */
  lemma NegamaxWindow(p: Position, depth: int, ply: int, fuel: nat, ms: seq<Move>, alpha: int, beta: int, a: int)
    requires Valid(p) && fuel > 0 && depth != 0 && alpha < beta && !NoLegalMove(p)
    requires forall m :: m in ms <==> m in GenMoves(p)
    requires a == Best(alpha, Concat(ms, NScorer(p, ChildDepth(p, depth), ply, fuel))) && a < beta
    ensures a == Clamp(NValue(p, depth, ply, fuel), alpha, beta)
  {
    var ns := NScorer(p, ChildDepth(p, depth), ply, fuel);
    ConcatSame(ms, GenMoves(p), ns);
    BestSame(alpha, Concat(ms, ns), Concat(GenMoves(p), ns));
    NodeIsBest(p, depth, ply, fuel);
    BestOfFirst(alpha, Concat(GenMoves(p), ns));
  }

  /** What a negamax node above depth 0 returns: its value r in the window, whether it raised
      alpha, and the move that did so when it is the root. */
  ghost predicate NodeFound(p: Position, depth: int, ply: int, fuel: nat, alpha: int, beta: int,
                            r: int, raised: bool, bestSoFar: Move)
    requires Valid(p) && fuel > 0
  {
    r == SearchValue(p, depth, ply, fuel, alpha, beta) &&
    (!NoLegalMove(p) && r != alpha && r != beta ==> raised) &&
    (raised && ply == 0 ==> RootBest(p, depth, fuel, bestSoFar, r))
  }

  /** What negamax promises its caller: the value of the node in the window and, at the root,
      a best move whose reply scores that value whenever the value lies strictly inside it. */
  ghost predicate SearchResult(p: Position, depth: int, ply: int, fuel: nat, alpha: int, beta: int,
                               r: int, best: Move)
    requires Valid(p)
  {
    r == SearchValue(p, depth, ply, fuel, alpha, beta) &&
    (ply == 0 && depth != 0 && !NoLegalMove(p) && r != alpha && r != beta ==>
       fuel > 0 && RootBest(p, depth, fuel, best, r))
  }

  /** The value negamax promises. */
  lemma ResultValue(p: Position, depth: int, ply: int, fuel: nat, alpha: int, beta: int, r: int, best: Move)
    requires Valid(p) && SearchResult(p, depth, ply, fuel, alpha, beta, r, best)
    ensures r == SearchValue(p, depth, ply, fuel, alpha, beta)
  {}

  /** A node above depth 0 keeps its promise once the root's best move is stored when alpha was
      raised. */
  lemma NodeResult(p: Position, depth: int, ply: int, fuel: nat, alpha: int, beta: int,
                   r: int, raised: bool, bestSoFar: Move, best: Move)
    requires Valid(p) && fuel > 0 && NodeFound(p, depth, ply, fuel, alpha, beta, r, raised, bestSoFar)
    requires raised && ply == 0 ==> best == bestSoFar
    ensures SearchResult(p, depth, ply, fuel, alpha, beta, r, best)
  {}

  /** The end of a negamax node, from what its loop found over a reordering ms of the generated
      moves: beta after a cut, the mate or stalemate score when no move was kept, and the best
      of alpha and the scores otherwise. That is the search value (NodeFound). */
  lemma NegamaxOutcome(p: Position, depth: int, ply: int, fuel: nat, ms: seq<Move>, alpha: int, beta: int,
                       inCheck: bool, cut: bool, legalMoves: int, a: int, bestSoFar: Move, raised: bool, r: int)
    requires Valid(p) && fuel > 0 && depth != 0 && alpha < beta && inCheck == InCheck(p)
    requires forall m :: m in ms <==> m in GenMoves(p)
    requires LoopFound(p, depth, ply, fuel, ms, alpha, beta, cut, legalMoves, a)
    requires !cut && ply == 0 && a != alpha ==> RootBest(p, depth, fuel, bestSoFar, a)
    requires raised == (!cut && legalMoves != 0 && a != alpha)
    requires r == if cut then beta else if legalMoves == 0 then (if inCheck then MateScore + ply else 0) else a
    ensures NodeFound(p, depth, ply, fuel, alpha, beta, r, raised, bestSoFar)
  {
    if cut {
      ClampHigh(NValue(p, depth, ply, fuel), alpha, beta);
    } else {
      KeptSame(p, ms);
      if legalMoves == 0 {
        MateOrStalemate(p, depth, ply, fuel);
      } else {
        NegamaxWindow(p, depth, ply, fuel, ms, alpha, beta, a);
      }
    }
  }

  // ----- The root's best move -----

  /** The content of negamax's local bestMoveSoFar, which the source declares without a value:
      Unset until the loop writes a move into it. */
  datatype Slot = Unset | Written(move: Move)

  /** bestMoveSoFar at the end of a node's loop as written, given the moves that raised alpha in
      loop order: the loop writes the raising move only when ply is 0. */
  function SoFarAsWritten(ply: int, raising: seq<Move>): Slot {
    if ply == 0 && raising != [] then Written(raising[|raising| - 1]) else Unset
  }

  /** The close of a node as written: when alpha rose, bestMove takes bestMoveSoFar at whatever
      ply the node is. */
  function StoreAsWritten(ply: int, raising: seq<Move>, best: Slot): Slot {
    if raising != [] then SoFarAsWritten(ply, raising) else best
  }

  /** As written, a node below the root that raises alpha overwrites bestMove with the local it
      never wrote; at the root the last raising move is stored, so the global is left wrong only
      when the root's alpha never rises. */
  lemma OffRootStoresUnset(ply: int, raising: seq<Move>, best: Move)
    requires raising != []
    ensures ply != 0 ==> StoreAsWritten(ply, raising, Written(best)) == Unset
    ensures ply == 0 ==> StoreAsWritten(ply, raising, Written(best)) == Written(raising[|raising| - 1])
  {}

  /** The close of a node as intended: only the root stores its best move, when alpha rose. */
  function StoreAtRoot(ply: int, raised: bool, soFar: Move, best: Move): Move {
    if raised && ply == 0 then soFar else best
  }

  /** Below the root bestMove is left alone; at the root it becomes the move that raised alpha
      last, and is kept when alpha did not rise. */
  lemma StoreAtRootSpec(ply: int, raised: bool, soFar: Move, best: Move)
    ensures ply != 0 ==> StoreAtRoot(ply, raised, soFar, best) == best
    ensures ply == 0 ==> StoreAtRoot(ply, raised, soFar, best) == if raised then soFar else best
  {}

  // ----- The perft loop -----

  /** A node above the leaves has a move list that fits, and each generated move is playable
      with a bounded tree below it when kept. */
  lemma PerftChild(p: Position, depth: nat, m: Move)
    requires Valid(p) && PerftBounded(p, depth) && depth > 0 && m in GenMoves(p)
    ensures Playable(p, m) && (Kept(p, m, false) ==> PerftBounded(Apply(p, m), depth - 1))
  {
    GenMovesSound(p);
  }

  /** A kept move counts the leaves below the position it leads to. */
  lemma PerftReply(p: Position, m: Move, depth: nat, child: Position)
    requires Valid(p) && depth > 0 && Kept(p, m, false) && child == Apply(p, m)
    ensures PerftCounter(p, depth)(m) == PerftCount(child, depth - 1)
  {}

  /** A move that is not kept counts nothing. */
  lemma PerftSkip(p: Position, m: Move, depth: nat)
    requires Valid(p) && depth > 0 && !Kept(p, m, false)
    ensures PerftCounter(p, depth)(m) == 0
  {}

  /** What one move of the loop added to the count is that move's count. */
  lemma PerftCounted(p: Position, m: Move, depth: nat, made: bool, added: int)
    requires Valid(p) && depth > 0 && Playable(p, m) && made == Kept(p, m, false)
    requires made ==> added == PerftCount(Apply(p, m), depth - 1)
    requires !made ==> added == 0
    ensures PerftCounter(p, depth)(m) == added
  {
    if made {
      PerftReply(p, m, depth, Apply(p, m));
    } else {
      PerftSkip(p, m, depth);
    }
  }

  /** The loop over the generated list counts the node. */
  lemma PerftTotal(p: Position, depth: nat, ms: seq<Move>)
    requires Valid(p) && depth > 0 && ms == GenMoves(p)
    ensures Sum(ms[..|ms|], PerftCounter(p, depth)) == PerftCount(p, depth)
  {
    assert ms[..|ms|] == ms;
    PerftSumJoin(p, ms, depth);
  }
}
