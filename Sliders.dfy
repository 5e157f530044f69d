// Sliding pieces (bishop, rook, queen), engine/main.c: the relevant-occupancy masks, the
// ray walks that stop at the first blocker, the enumeration of the subsets of a mask, the
// magic-index acceptance check and the magic table lookups.
module Sliders {
  import opened Bits

  // ----- One ray loop -----

  /** A direction: each coordinate moves by -1, 0 or +1 per step, and at least one moves. */
  predicate Direction(dr: int, df: int) {
    -1 <= dr <= 1 && -1 <= df <= 1 && (dr, df) != (0, 0)
  }

  /** The walk's loop condition, as the engine writes it: only a moving coordinate is compared,
      against hi when it increases and against lo when it decreases. */
  predicate Inside(r: int, f: int, dr: int, df: int, lo: int, hi: int) {
    (dr > 0 ==> r <= hi) && (dr < 0 ==> r >= lo) && (df > 0 ==> f <= hi) && (df < 0 ==> f >= lo)
  }

  /** A walk position: each coordinate is on the board, except that a moving coordinate may
      already have stepped beyond the edge it moves towards. */
  predicate Valid(r: int, f: int, dr: int, df: int, lo: int, hi: int) {
    Direction(dr, df) && 0 <= lo && hi <= 7 &&
    (if dr > 0 then 0 <= r else if dr < 0 then r <= 7 else 0 <= r <= 7) &&
    (if df > 0 then 0 <= f else if df < 0 then f <= 7 else 0 <= f <= 7)
  }

  /** Steps the walk may still take. */
  function Room(r: int, f: int, dr: int, df: int): int {
    (if dr > 0 then 8 - r else if dr < 0 then r + 1 else 0) + (if df > 0 then 8 - f else if df < 0 then f + 1 else 0)
  }

  lemma InsideOnBoard(r: int, f: int, dr: int, df: int, lo: int, hi: int)
    requires Valid(r, f, dr, df, lo, hi) && Inside(r, f, dr, df, lo, hi)
    ensures 0 <= r < 8 && 0 <= f < 8
    ensures Valid(r + dr, f + df, dr, df, lo, hi)
    ensures 0 <= Room(r + dr, f + df, dr, df) < Room(r, f, dr, df)
  {}

  /** How many squares one of the engine's ray loops sets when it starts at (r, f): every square
      while the loop condition holds, up to and including the first one that `occ` marks. */
  function Reach(r: int, f: int, dr: int, df: int, lo: int, hi: int, occ: seq<bool>): (n: int)
    requires Valid(r, f, dr, df, lo, hi) && |occ| == 64
    ensures n >= 0
    decreases Room(r, f, dr, df)
  {
    if !Inside(r, f, dr, df, lo, hi) then 0
    else
      InsideOnBoard(r, f, dr, df, lo, hi);
      if occ[r * 8 + f] then 1 else 1 + Reach(r + dr, f + df, dr, df, lo, hi, occ)
  }

  /** j steps of d, for d in -1..1. */
  function Mul(j: int, d: int): int {
    if d > 0 then j else if d < 0 then -j else 0
  }

  lemma MulStep(j: int, d: int)
    requires -1 <= d <= 1
    ensures d + Mul(j, d) == Mul(j + 1, d)
  {}

  /** The j-th square (counting from 0) of the ray from (r, f) is on the board. */
  predicate RayOnBoard(r: int, f: int, dr: int, df: int, j: int) {
    0 <= r + Mul(j, dr) < 8 && 0 <= f + Mul(j, df) < 8
  }

  /** The number of the j-th square of the ray from (r, f). */
  function RaySquare(r: int, f: int, dr: int, df: int, j: int): int {
    (r + Mul(j, dr)) * 8 + (f + Mul(j, df))
  }

  /** (rt, ft) is the j-th square of the ray from (r, f), on the board. */
  predicate At(r: int, f: int, dr: int, df: int, j: int, rt: int, ft: int) {
    RayOnBoard(r, f, dr, df, j) && rt == r + Mul(j, dr) && ft == f + Mul(j, df)
  }

  /** Where (rt, ft) would sit on the ray from (r, f), read off a moving coordinate. */
  function RayPos(r: int, f: int, dr: int, df: int, rt: int, ft: int): int {
    if dr != 0 then Mul(rt - r, dr) else Mul(ft - f, df)
  }

  /** (rt, ft) is one of the first n squares of the ray from (r, f). */
  predicate Within(r: int, f: int, dr: int, df: int, rt: int, ft: int, n: int) {
    0 <= RayPos(r, f, dr, df, rt, ft) < n && At(r, f, dr, df, RayPos(r, f, dr, df, rt, ft), rt, ft)
  }

  lemma AtPos(r: int, f: int, dr: int, df: int, j: int, rt: int, ft: int)
    requires Direction(dr, df) && rt == r + Mul(j, dr) && ft == f + Mul(j, df)
    ensures RayPos(r, f, dr, df, rt, ft) == j
  {}

  /** Seen from the next square, every square of the ray sits one step earlier. */
  lemma PosShift(r: int, f: int, dr: int, df: int, rt: int, ft: int)
    requires Direction(dr, df)
    ensures RayPos(r + dr, f + df, dr, df, rt, ft) == RayPos(r, f, dr, df, rt, ft) - 1
  {}

  /** The ray from (r, f) without its first square is the ray from the next square. */
  lemma RayShift(r: int, f: int, dr: int, df: int, j: int)
    requires Direction(dr, df)
    ensures RayOnBoard(r + dr, f + df, dr, df, j) <==> RayOnBoard(r, f, dr, df, j + 1)
    ensures RaySquare(r + dr, f + df, dr, df, j) == RaySquare(r, f, dr, df, j + 1)
  {
    MulStep(j, dr);
    MulStep(j, df);
  }

  /** Board coordinates are determined by the square number. */
  lemma SameSquare(a: int, b: int, c: int, d: int)
    requires 0 <= b < 8 && 0 <= d < 8 && a * 8 + b == c * 8 + d
    ensures a == c && b == d
  {
    assert 8 * (a - c) == d - b;
  }

  /** Marks the first n squares of the ray from (r, f) (a square off the board ends it). */
  function Fill(acc: seq<bool>, r: int, f: int, dr: int, df: int, n: int): (m: seq<bool>)
    requires |acc| == 64
    ensures |m| == 64
    decreases n
  {
    if n <= 0 || !(0 <= r < 8 && 0 <= f < 8) then acc
    else Fill(acc[r * 8 + f := true], r + dr, f + df, dr, df, n - 1)
  }

  /** The squares one ray loop has set when it is done, starting from those in acc. */
  function Walk(acc: seq<bool>, r: int, f: int, dr: int, df: int, lo: int, hi: int, occ: seq<bool>): (m: seq<bool>)
    requires Valid(r, f, dr, df, lo, hi) && |acc| == 64 && |occ| == 64
    ensures |m| == 64
  {
    Fill(acc, r, f, dr, df, Reach(r, f, dr, df, lo, hi, occ))
  }

  /** The first n squares of a ray are its first square and the first n - 1 from the next one. */
  lemma WithinStep(r: int, f: int, dr: int, df: int, rt: int, ft: int, n: int)
    requires Direction(dr, df) && 0 < n && RayOnBoard(r, f, dr, df, 0)
    ensures Within(r, f, dr, df, rt, ft, n) <==> (rt == r && ft == f) || Within(r + dr, f + df, dr, df, rt, ft, n - 1)
  {
    var j := RayPos(r, f, dr, df, rt, ft);
    PosShift(r, f, dr, df, rt, ft);
    RayShift(r, f, dr, df, j - 1);
    if rt == r && ft == f {
      AtPos(r, f, dr, df, 0, rt, ft);
    }
  }

  lemma {:induction false} FillSpec(acc: seq<bool>, r: int, f: int, dr: int, df: int, n: int, rt: int, ft: int)
    requires |acc| == 64 && 0 <= rt < 8 && 0 <= ft < 8
    requires Direction(dr, df) && forall j :: 0 <= j < n ==> RayOnBoard(r, f, dr, df, j)
    ensures Fill(acc, r, f, dr, df, n)[rt * 8 + ft] <==> acc[rt * 8 + ft] || Within(r, f, dr, df, rt, ft, n)
    decreases n
  {
    if n > 0 {
      assert RayOnBoard(r, f, dr, df, 0);
      var r', f' := r + dr, f + df;
      forall j | 0 <= j < n - 1 ensures RayOnBoard(r', f', dr, df, j) {
        assert RayOnBoard(r, f, dr, df, j + 1);
        RayShift(r, f, dr, df, j);
      }
      FillSpec(acc[r * 8 + f := true], r', f', dr, df, n - 1, rt, ft);
      WithinStep(r, f, dr, df, rt, ft, n);
      if rt * 8 + ft == r * 8 + f {
        SameSquare(rt, ft, r, f);
      }
    }
  }

  /** The j-th square of the ray passes the loop condition. */
  predicate InsideAt(r: int, f: int, dr: int, df: int, lo: int, hi: int, j: int) {
    Inside(r + Mul(j, dr), f + Mul(j, df), dr, df, lo, hi)
  }

  lemma InsideShift(r: int, f: int, dr: int, df: int, lo: int, hi: int, j: int)
    requires Direction(dr, df)
    ensures InsideAt(r + dr, f + df, dr, df, lo, hi, j) <==> InsideAt(r, f, dr, df, lo, hi, j + 1)
  {
    MulStep(j, dr);
    MulStep(j, df);
  }

  /** Every square the walk counts is on the board and passes the loop condition. */
  lemma {:induction false} ReachInside(r: int, f: int, dr: int, df: int, lo: int, hi: int, occ: seq<bool>, j: int)
    requires Valid(r, f, dr, df, lo, hi) && |occ| == 64 && 0 <= j < Reach(r, f, dr, df, lo, hi, occ)
    ensures RayOnBoard(r, f, dr, df, j) && InsideAt(r, f, dr, df, lo, hi, j)
    decreases Room(r, f, dr, df)
  {
    InsideOnBoard(r, f, dr, df, lo, hi);
    if j > 0 {
      ReachInside(r + dr, f + df, dr, df, lo, hi, occ, j - 1);
      RayShift(r, f, dr, df, j - 1);
      InsideShift(r, f, dr, df, lo, hi, j - 1);
    }
  }

  /** (rt, ft) is among the squares the ray loop from (r, f) sets. */
  predicate Reached(r: int, f: int, dr: int, df: int, lo: int, hi: int, occ: seq<bool>, rt: int, ft: int)
    requires Valid(r, f, dr, df, lo, hi) && |occ| == 64
  {
    Within(r, f, dr, df, rt, ft, Reach(r, f, dr, df, lo, hi, occ))
  }

  lemma WalkSpec(acc: seq<bool>, r: int, f: int, dr: int, df: int, lo: int, hi: int, occ: seq<bool>, rt: int, ft: int)
    requires Valid(r, f, dr, df, lo, hi) && |acc| == 64 && |occ| == 64 && 0 <= rt < 8 && 0 <= ft < 8
    ensures Walk(acc, r, f, dr, df, lo, hi, occ)[rt * 8 + ft] <==> acc[rt * 8 + ft] || Reached(r, f, dr, df, lo, hi, occ, rt, ft)
  {
    var n := Reach(r, f, dr, df, lo, hi, occ);
    forall j | 0 <= j < n ensures RayOnBoard(r, f, dr, df, j) {
      ReachInside(r, f, dr, df, lo, hi, occ, j);
    }
    FillSpec(acc, r, f, dr, df, n, rt, ft);
  }

  /** One iteration of a ray loop: mark the square, then stop at a blocker or move on. */
  lemma WalkStep(acc: seq<bool>, r: int, f: int, dr: int, df: int, lo: int, hi: int, occ: seq<bool>)
    requires Valid(r, f, dr, df, lo, hi) && |acc| == 64 && |occ| == 64 && Inside(r, f, dr, df, lo, hi)
    ensures 0 <= r < 8 && 0 <= f < 8 && Valid(r + dr, f + df, dr, df, lo, hi)
    ensures Walk(acc, r, f, dr, df, lo, hi, occ) ==
      if occ[r * 8 + f] then acc[r * 8 + f := true]
      else Walk(acc[r * 8 + f := true], r + dr, f + df, dr, df, lo, hi, occ)
  {
    InsideOnBoard(r, f, dr, df, lo, hi);
  }

  lemma WalkHit(acc: seq<bool>, r: int, f: int, dr: int, df: int, lo: int, hi: int, occ: seq<bool>)
    requires Valid(r, f, dr, df, lo, hi) && |acc| == 64 && |occ| == 64 && Inside(r, f, dr, df, lo, hi)
    requires 0 <= r < 8 && 0 <= f < 8 && occ[r * 8 + f]
    ensures Walk(acc, r, f, dr, df, lo, hi, occ) == acc[r * 8 + f := true]
  {
    WalkStep(acc, r, f, dr, df, lo, hi, occ);
  }

  lemma WalkPass(acc: seq<bool>, r: int, f: int, dr: int, df: int, lo: int, hi: int, occ: seq<bool>)
    requires Valid(r, f, dr, df, lo, hi) && |acc| == 64 && |occ| == 64 && Inside(r, f, dr, df, lo, hi)
    requires 0 <= r < 8 && 0 <= f < 8 && !occ[r * 8 + f]
    ensures Valid(r + dr, f + df, dr, df, lo, hi)
    ensures Walk(acc, r, f, dr, df, lo, hi, occ) == Walk(acc[r * 8 + f := true], r + dr, f + df, dr, df, lo, hi, occ)
  {
    WalkStep(acc, r, f, dr, df, lo, hi, occ);
  }

  /** Setting the bit of (rank, file) sets flag rank * 8 + file, and that flag is the blocker test. */
  lemma MarkSquare(b: Bitboard, blockers: Bitboard, rank: int, file: int)
    requires 0 <= rank < 8 && 0 <= file < 8
    ensures Members(SetBit(b, SquareAt(rank, file))) == Members(b)[rank * 8 + file := true]
    ensures GetBit(blockers, SquareAt(rank, file)) == Members(blockers)[rank * 8 + file]
  {
    SquareAtIndex(rank, file);
    MembersSetBit(b, SquareAt(rank, file));
    MembersAt(blockers, SquareAt(rank, file));
  }

  /** A ray loop of the mask builders: no blocker test. */
  method MaskRay(attacks: Bitboard, r: int, f: int, dr: int, df: int, lo: int, hi: int)
    returns (result: Bitboard)
    requires Valid(r, f, dr, df, lo, hi)
    ensures Members(result) == Walk(Members(attacks), r, f, dr, df, lo, hi, NoSquares())
  {
    result := attacks;
    var rank, file := r, f;
    while Inside(rank, file, dr, df, lo, hi)
      invariant Valid(rank, file, dr, df, lo, hi)
      invariant Walk(Members(result), rank, file, dr, df, lo, hi, NoSquares())
             == Walk(Members(attacks), r, f, dr, df, lo, hi, NoSquares())
      decreases Room(rank, file, dr, df)
    {
      InsideOnBoard(rank, file, dr, df, lo, hi);
      MarkSquare(result, 0, rank, file);
      WalkPass(Members(result), rank, file, dr, df, lo, hi, NoSquares());
      result := SetBit(result, SquareAt(rank, file));
      rank, file := rank + dr, file + df;
    }
  }

  /** A ray loop of the on-the-fly attack builders: it stops right after a blocker. */
  method AttackRay(attacks: Bitboard, r: int, f: int, dr: int, df: int, blockers: Bitboard)
    returns (result: Bitboard)
    requires Valid(r, f, dr, df, 0, 7)
    ensures Members(result) == Walk(Members(attacks), r, f, dr, df, 0, 7, Members(blockers))
  {
    result := attacks;
    var rank, file := r, f;
    while Inside(rank, file, dr, df, 0, 7)
      invariant Valid(rank, file, dr, df, 0, 7)
      invariant Walk(Members(result), rank, file, dr, df, 0, 7, Members(blockers))
             == Walk(Members(attacks), r, f, dr, df, 0, 7, Members(blockers))
      decreases Room(rank, file, dr, df)
    {
      InsideOnBoard(rank, file, dr, df, 0, 7);
      var sq := SquareAt(rank, file);
      MarkSquare(result, blockers, rank, file);
      if GetBit(blockers, sq) {
        WalkHit(Members(result), rank, file, dr, df, 0, 7, Members(blockers));
        result := SetBit(result, sq);
        return;
      }
      WalkPass(Members(result), rank, file, dr, df, 0, 7, Members(blockers));
      result := SetBit(result, sq);
      rank, file := rank + dr, file + df;
    }
  }

  /** Without blockers a ray loop sets exactly the squares that pass its loop condition. */
  lemma {:induction false} ReachNoBlockers(r: int, f: int, dr: int, df: int, lo: int, hi: int, j: int)
    requires Valid(r, f, dr, df, lo, hi) && 0 <= j
    ensures j < Reach(r, f, dr, df, lo, hi, NoSquares()) <==> InsideAt(r, f, dr, df, lo, hi, j)
    decreases Room(r, f, dr, df)
  {
    if Inside(r, f, dr, df, lo, hi) {
      InsideOnBoard(r, f, dr, df, lo, hi);
      assert !NoSquares()[r * 8 + f];
      if j > 0 {
        ReachNoBlockers(r + dr, f + df, dr, df, lo, hi, j - 1);
        InsideShift(r, f, dr, df, lo, hi, j - 1);
      }
    }
  }

  /** (rt, ft) lies n >= 1 steps from (r, f) in direction (dr, df) and passes the loop condition. */
  predicate Along(r: int, f: int, dr: int, df: int, lo: int, hi: int, rt: int, ft: int) {
    var n := RayPos(r, f, dr, df, rt, ft);
    n >= 1 && At(r, f, dr, df, n, rt, ft) && InsideAt(r, f, dr, df, lo, hi, n)
  }

  lemma AtShift(r: int, f: int, dr: int, df: int, j: int, rt: int, ft: int)
    requires Direction(dr, df)
    ensures At(r + dr, f + df, dr, df, j, rt, ft) <==> At(r, f, dr, df, j + 1, rt, ft)
  {
    MulStep(j, dr);
    MulStep(j, df);
  }

  /** A ray of length len whose squares are exactly those passing the loop condition covers
      exactly the squares Along it. */
  lemma WithinAlong(r: int, f: int, dr: int, df: int, lo: int, hi: int, rt: int, ft: int, len: int)
    requires Direction(dr, df)
    requires var n := RayPos(r, f, dr, df, rt, ft);
      n >= 1 ==> (n - 1 < len <==> InsideAt(r + dr, f + df, dr, df, lo, hi, n - 1))
    ensures Within(r + dr, f + df, dr, df, rt, ft, len) <==> Along(r, f, dr, df, lo, hi, rt, ft)
  {
    var n := RayPos(r, f, dr, df, rt, ft);
    PosShift(r, f, dr, df, rt, ft);
    if n >= 1 {
      InsideShift(r, f, dr, df, lo, hi, n - 1);
      AtShift(r, f, dr, df, n - 1, rt, ft);
    }
  }

  /** The ray loop of a mask builder, started next to (r, f), sets exactly the squares Along it. */
  lemma MaskReached(r: int, f: int, dr: int, df: int, lo: int, hi: int, rt: int, ft: int)
    requires 0 <= r < 8 && 0 <= f < 8 && Direction(dr, df) && 0 <= lo && hi <= 7
    ensures Valid(r + dr, f + df, dr, df, lo, hi)
    ensures Reached(r + dr, f + df, dr, df, lo, hi, NoSquares(), rt, ft) <==> Along(r, f, dr, df, lo, hi, rt, ft)
  {
    var n := RayPos(r, f, dr, df, rt, ft);
    var len := Reach(r + dr, f + df, dr, df, lo, hi, NoSquares());
    if n >= 1 {
      ReachNoBlockers(r + dr, f + df, dr, df, lo, hi, n - 1);
    }
    WithinAlong(r, f, dr, df, lo, hi, rt, ft, len);
  }

  // ----- Four rays from one square -----

  predicate Directions(ds: seq<(int, int)>) {
    forall k :: 0 <= k < |ds| ==> Direction(ds[k].0, ds[k].1)
  }

  /** The bishop's rays, in the order of the engine's loops. */
  function BishopDirections(): (ds: seq<(int, int)>)
    ensures |ds| == 4 && Directions(ds)
  {
    [(1, 1), (-1, -1), (-1, 1), (1, -1)]
  }

  /** The rook's rays, in the order of the engine's loops. */
  function RookDirections(): (ds: seq<(int, int)>)
    ensures |ds| == 4 && Directions(ds)
  {
    [(1, 0), (-1, 0), (0, 1), (0, -1)]
  }

  /** The ray loops for the directions ds, one after the other, each started next to (r, f). */
  function Rays(acc: seq<bool>, r: int, f: int, ds: seq<(int, int)>, lo: int, hi: int, occ: seq<bool>): (m: seq<bool>)
    requires 0 <= r < 8 && 0 <= f < 8 && Directions(ds) && 0 <= lo && hi <= 7 && |acc| == 64 && |occ| == 64
    ensures |m| == 64
    decreases |ds|
  {
    if ds == [] then acc
    else Rays(Walk(acc, r + ds[0].0, f + ds[0].1, ds[0].0, ds[0].1, lo, hi, occ), r, f, ds[1..], lo, hi, occ)
  }

  /** (rt, ft) is set by the ray loop in direction d started next to (r, f). */
  predicate RayReached(r: int, f: int, d: (int, int), lo: int, hi: int, occ: seq<bool>, rt: int, ft: int)
    requires 0 <= r < 8 && 0 <= f < 8 && Direction(d.0, d.1) && 0 <= lo && hi <= 7 && |occ| == 64
  {
    Reached(r + d.0, f + d.1, d.0, d.1, lo, hi, occ, rt, ft)
  }

  /** A square is set after the ray loops exactly when it was set before or one of the rays sets it. */
  lemma {:induction false} RaysSpec(acc: seq<bool>, r: int, f: int, ds: seq<(int, int)>, lo: int, hi: int, occ: seq<bool>, rt: int, ft: int)
    requires 0 <= r < 8 && 0 <= f < 8 && Directions(ds) && 0 <= lo && hi <= 7 && |acc| == 64 && |occ| == 64
    requires 0 <= rt < 8 && 0 <= ft < 8
    ensures Rays(acc, r, f, ds, lo, hi, occ)[rt * 8 + ft] <==>
      acc[rt * 8 + ft] || exists k :: 0 <= k < |ds| && RayReached(r, f, ds[k], lo, hi, occ, rt, ft)
    decreases |ds|
  {
    if ds != [] {
      var d := ds[0];
      var acc' := Walk(acc, r + d.0, f + d.1, d.0, d.1, lo, hi, occ);
      WalkSpec(acc, r + d.0, f + d.1, d.0, d.1, lo, hi, occ, rt, ft);
      RaysSpec(acc', r, f, ds[1..], lo, hi, occ, rt, ft);
      ExistsTail(r, f, ds, lo, hi, occ, rt, ft);
    }
  }

  /** One of the rays sets the square exactly when the first does or one of the others does. */
  lemma ExistsTail(r: int, f: int, ds: seq<(int, int)>, lo: int, hi: int, occ: seq<bool>, rt: int, ft: int)
    requires 0 <= r < 8 && 0 <= f < 8 && Directions(ds) && ds != [] && 0 <= lo && hi <= 7 && |occ| == 64
    ensures (exists k :: 0 <= k < |ds| && RayReached(r, f, ds[k], lo, hi, occ, rt, ft)) <==>
      RayReached(r, f, ds[0], lo, hi, occ, rt, ft) || exists k :: 0 <= k < |ds[1..]| && RayReached(r, f, ds[1..][k], lo, hi, occ, rt, ft)
  {
    if k :| 0 <= k < |ds[1..]| && RayReached(r, f, ds[1..][k], lo, hi, occ, rt, ft) {
      assert ds[1..][k] == ds[k + 1];
    }
    if k :| 0 <= k < |ds| && RayReached(r, f, ds[k], lo, hi, occ, rt, ft) {
      if k > 0 {
        assert ds[k] == ds[1..][k - 1];
      }
    }
  }

  /** The four ray loops written out. */
  lemma RaysFour(acc: seq<bool>, r: int, f: int, ds: seq<(int, int)>, lo: int, hi: int, occ: seq<bool>)
    requires 0 <= r < 8 && 0 <= f < 8 && Directions(ds) && |ds| == 4 && 0 <= lo && hi <= 7 && |acc| == 64 && |occ| == 64
    ensures
      var a1 := Walk(acc, r + ds[0].0, f + ds[0].1, ds[0].0, ds[0].1, lo, hi, occ);
      var a2 := Walk(a1, r + ds[1].0, f + ds[1].1, ds[1].0, ds[1].1, lo, hi, occ);
      var a3 := Walk(a2, r + ds[2].0, f + ds[2].1, ds[2].0, ds[2].1, lo, hi, occ);
      Rays(acc, r, f, ds, lo, hi, occ) == Walk(a3, r + ds[3].0, f + ds[3].1, ds[3].0, ds[3].1, lo, hi, occ)
  {
    var a1 := Walk(acc, r + ds[0].0, f + ds[0].1, ds[0].0, ds[0].1, lo, hi, occ);
    var a2 := Walk(a1, r + ds[1].0, f + ds[1].1, ds[1].0, ds[1].1, lo, hi, occ);
    var a3 := Walk(a2, r + ds[2].0, f + ds[2].1, ds[2].0, ds[2].1, lo, hi, occ);
    var a4 := Walk(a3, r + ds[3].0, f + ds[3].1, ds[3].0, ds[3].1, lo, hi, occ);
    assert Rays(a4, r, f, ds[4..], lo, hi, occ) == a4;
    assert Rays(a3, r, f, ds[3..], lo, hi, occ) == a4 by { assert ds[3..][0] == ds[3] && ds[3..][1..] == ds[4..]; }
    assert Rays(a2, r, f, ds[2..], lo, hi, occ) == a4 by { assert ds[2..][0] == ds[2] && ds[2..][1..] == ds[3..]; }
    assert Rays(a1, r, f, ds[1..], lo, hi, occ) == a4 by { assert ds[1..][0] == ds[1] && ds[1..][1..] == ds[2..]; }
  }

  /** The union over four rays, written as a disjunction. */
  lemma ExistsFour(r: int, f: int, ds: seq<(int, int)>, lo: int, hi: int, occ: seq<bool>, rt: int, ft: int)
    requires 0 <= r < 8 && 0 <= f < 8 && Directions(ds) && |ds| == 4 && 0 <= lo && hi <= 7 && |occ| == 64
    ensures (exists k :: 0 <= k < |ds| && RayReached(r, f, ds[k], lo, hi, occ, rt, ft)) <==>
      RayReached(r, f, ds[0], lo, hi, occ, rt, ft) || RayReached(r, f, ds[1], lo, hi, occ, rt, ft) ||
      RayReached(r, f, ds[2], lo, hi, occ, rt, ft) || RayReached(r, f, ds[3], lo, hi, occ, rt, ft)
  {
    if k :| 0 <= k < |ds| && RayReached(r, f, ds[k], lo, hi, occ, rt, ft) {
      assert k == 0 || k == 1 || k == 2 || k == 3;
    }
  }

  /** After four ray loops a square is set exactly when one of them sets it. */
  lemma RaysFourAt(r: int, f: int, ds: seq<(int, int)>, lo: int, hi: int, occ: seq<bool>, rt: int, ft: int)
    requires 0 <= r < 8 && 0 <= f < 8 && Directions(ds) && |ds| == 4 && 0 <= lo && hi <= 7 && |occ| == 64
    requires 0 <= rt < 8 && 0 <= ft < 8
    ensures Rays(NoSquares(), r, f, ds, lo, hi, occ)[rt * 8 + ft] <==>
      RayReached(r, f, ds[0], lo, hi, occ, rt, ft) || RayReached(r, f, ds[1], lo, hi, occ, rt, ft) ||
      RayReached(r, f, ds[2], lo, hi, occ, rt, ft) || RayReached(r, f, ds[3], lo, hi, occ, rt, ft)
  {
    RaysSpec(NoSquares(), r, f, ds, lo, hi, occ, rt, ft);
    ExistsFour(r, f, ds, lo, hi, occ, rt, ft);
  }

  /** The bishop's four ray loops, in the engine's order. */
  lemma BishopRays(acc: seq<bool>, r: int, f: int, lo: int, hi: int, occ: seq<bool>)
    requires 0 <= r < 8 && 0 <= f < 8 && 0 <= lo && hi <= 7 && |acc| == 64 && |occ| == 64
    ensures Rays(acc, r, f, BishopDirections(), lo, hi, occ) ==
      Walk(Walk(Walk(Walk(acc, r + 1, f + 1, 1, 1, lo, hi, occ), r - 1, f - 1, -1, -1, lo, hi, occ),
        r - 1, f + 1, -1, 1, lo, hi, occ), r + 1, f - 1, 1, -1, lo, hi, occ)
  {
    RaysFour(acc, r, f, BishopDirections(), lo, hi, occ);
  }

  /** The rook's four ray loops, in the engine's order. */
  lemma RookRays(acc: seq<bool>, r: int, f: int, lo: int, hi: int, occ: seq<bool>)
    requires 0 <= r < 8 && 0 <= f < 8 && 0 <= lo && hi <= 7 && |acc| == 64 && |occ| == 64
    ensures Rays(acc, r, f, RookDirections(), lo, hi, occ) ==
      Walk(Walk(Walk(Walk(acc, r + 1, f, 1, 0, lo, hi, occ), r - 1, f, -1, 0, lo, hi, occ),
        r, f + 1, 0, 1, lo, hi, occ), r, f - 1, 0, -1, lo, hi, occ)
  {
    RaysFour(acc, r, f, RookDirections(), lo, hi, occ);
  }

  /** The relevant-occupancy mask of maskBishopAttacks. */
  function BishopMask(s: Square): (m: seq<bool>)
    ensures |m| == 64
  {
    Rays(NoSquares(), Rank(s), File(s), BishopDirections(), 1, 6, NoSquares())
  }

  /** The relevant-occupancy mask of maskRookAttacks. */
  function RookMask(s: Square): (m: seq<bool>)
    ensures |m| == 64
  {
    Rays(NoSquares(), Rank(s), File(s), RookDirections(), 1, 6, NoSquares())
  }

  /** The squares getBishopAttacksOnTheFly sets for the blockers occ. */
  function BishopAttacks(s: Square, occ: seq<bool>): (m: seq<bool>)
    requires |occ| == 64
    ensures |m| == 64
  {
    Rays(NoSquares(), Rank(s), File(s), BishopDirections(), 0, 7, occ)
  }

  /** The squares getRookAttacksOnTheFly sets for the blockers occ. */
  function RookAttacks(s: Square, occ: seq<bool>): (m: seq<bool>)
    requires |occ| == 64
    ensures |m| == 64
  {
    Rays(NoSquares(), Rank(s), File(s), RookDirections(), 0, 7, occ)
  }

  method MaskBishopAttacks(square: Square) returns (attacks: Bitboard)
    ensures Members(attacks) == BishopMask(square)
    ensures PopCount(attacks) == BishopBits(square)
  {
    var targetRank, targetFile := Rank(square), File(square);
    attacks := 0;
    MembersEmpty();
    attacks := MaskRay(attacks, targetRank + 1, targetFile + 1, 1, 1, 1, 6);
    attacks := MaskRay(attacks, targetRank - 1, targetFile - 1, -1, -1, 1, 6);
    attacks := MaskRay(attacks, targetRank - 1, targetFile + 1, -1, 1, 1, 6);
    attacks := MaskRay(attacks, targetRank + 1, targetFile - 1, 1, -1, 1, 6);
    BishopRays(NoSquares(), targetRank, targetFile, 1, 6, NoSquares());
    BishopMaskCount(square);
  }

  method MaskRookAttacks(square: Square) returns (attacks: Bitboard)
    ensures Members(attacks) == RookMask(square)
    ensures PopCount(attacks) == RookBits(square)
  {
    var targetRank, targetFile := Rank(square), File(square);
    attacks := 0;
    MembersEmpty();
    attacks := MaskRay(attacks, targetRank + 1, targetFile, 1, 0, 1, 6);
    attacks := MaskRay(attacks, targetRank - 1, targetFile, -1, 0, 1, 6);
    attacks := MaskRay(attacks, targetRank, targetFile + 1, 0, 1, 1, 6);
    attacks := MaskRay(attacks, targetRank, targetFile - 1, 0, -1, 1, 6);
    RookRays(NoSquares(), targetRank, targetFile, 1, 6, NoSquares());
    RookMaskCount(square);
  }

  method BishopAttacksOnTheFly(square: Square, blockingBits: Bitboard) returns (attacks: Bitboard)
    ensures Members(attacks) == BishopAttacks(square, Members(blockingBits))
    ensures attacks != 0 && !GetBit(attacks, square)
  {
    var targetRank, targetFile := Rank(square), File(square);
    attacks := 0;
    MembersEmpty();
    attacks := AttackRay(attacks, targetRank + 1, targetFile + 1, 1, 1, blockingBits);
    attacks := AttackRay(attacks, targetRank - 1, targetFile - 1, -1, -1, blockingBits);
    attacks := AttackRay(attacks, targetRank - 1, targetFile + 1, -1, 1, blockingBits);
    attacks := AttackRay(attacks, targetRank + 1, targetFile - 1, 1, -1, blockingBits);
    BishopRays(NoSquares(), targetRank, targetFile, 0, 7, Members(blockingBits));
    BishopResult(attacks, square, Members(blockingBits));
  }

  /** A bitboard holding the bishop attacks is not zero and does not hold the piece's square. */
  lemma BishopResult(attacks: Bitboard, square: Square, occ: seq<bool>)
    requires |occ| == 64 && Members(attacks) == BishopAttacks(square, occ)
    ensures attacks != 0 && !GetBit(attacks, square)
  {
    BishopAttacksNonEmpty(square, occ);
    var i :| 0 <= i < 64 && Members(attacks)[i];
    NonZero(attacks, i);
    BishopAttacksNotSelf(square, occ);
    MembersAt(attacks, square);
  }

  method RookAttacksOnTheFly(square: Square, blockingBits: Bitboard) returns (attacks: Bitboard)
    ensures Members(attacks) == RookAttacks(square, Members(blockingBits))
    ensures attacks != 0 && !GetBit(attacks, square)
  {
    var targetRank, targetFile := Rank(square), File(square);
    attacks := 0;
    MembersEmpty();
    attacks := AttackRay(attacks, targetRank + 1, targetFile, 1, 0, blockingBits);
    attacks := AttackRay(attacks, targetRank - 1, targetFile, -1, 0, blockingBits);
    attacks := AttackRay(attacks, targetRank, targetFile + 1, 0, 1, blockingBits);
    attacks := AttackRay(attacks, targetRank, targetFile - 1, 0, -1, blockingBits);
    RookRays(NoSquares(), targetRank, targetFile, 0, 7, Members(blockingBits));
    RookResult(attacks, square, Members(blockingBits));
  }

  /** A bitboard holding the rook attacks is not zero and does not hold the piece's square. */
  lemma RookResult(attacks: Bitboard, square: Square, occ: seq<bool>)
    requires |occ| == 64 && Members(attacks) == RookAttacks(square, occ)
    ensures attacks != 0 && !GetBit(attacks, square)
  {
    RookAttacksNonEmpty(square, occ);
    var i :| 0 <= i < 64 && Members(attacks)[i];
    NonZero(attacks, i);
    RookAttacksNotSelf(square, occ);
    MembersAt(attacks, square);
  }

  // ----- The relevant-occupancy masks -----

  lemma MaskRayReached(r: int, f: int, d: (int, int), lo: int, hi: int, rt: int, ft: int)
    requires 0 <= r < 8 && 0 <= f < 8 && 0 <= rt < 8 && 0 <= ft < 8
    requires Direction(d.0, d.1) && 0 <= lo && hi <= 7
    ensures RayReached(r, f, d, lo, hi, NoSquares(), rt, ft) <==> Along(r, f, d.0, d.1, lo, hi, rt, ft)
  {
    MaskReached(r, f, d.0, d.1, lo, hi, rt, ft);
  }

  /** The four mask ray loops from (r, f) set exactly the squares Along one of the rays. */
  lemma MaskFour(r: int, f: int, ds: seq<(int, int)>, lo: int, hi: int, rt: int, ft: int)
    requires 0 <= r < 8 && 0 <= f < 8 && Directions(ds) && |ds| == 4 && 0 <= lo && hi <= 7
    requires 0 <= rt < 8 && 0 <= ft < 8
    ensures Rays(NoSquares(), r, f, ds, lo, hi, NoSquares())[rt * 8 + ft] <==>
      Along(r, f, ds[0].0, ds[0].1, lo, hi, rt, ft) || Along(r, f, ds[1].0, ds[1].1, lo, hi, rt, ft) ||
      Along(r, f, ds[2].0, ds[2].1, lo, hi, rt, ft) || Along(r, f, ds[3].0, ds[3].1, lo, hi, rt, ft)
  {
    RaysFourAt(r, f, ds, lo, hi, NoSquares(), rt, ft);
    MaskRayReached(r, f, ds[0], lo, hi, rt, ft);
    MaskRayReached(r, f, ds[1], lo, hi, rt, ft);
    MaskRayReached(r, f, ds[2], lo, hi, rt, ft);
    MaskRayReached(r, f, ds[3], lo, hi, rt, ft);
  }

  /** The four diagonal rays of the bishop mask, in closed form. */
  lemma BishopAlong(r: int, f: int, rt: int, ft: int)
    requires 0 <= r < 8 && 0 <= f < 8 && 0 <= rt < 8 && 0 <= ft < 8
    ensures (Along(r, f, 1, 1, 1, 6, rt, ft) || Along(r, f, -1, -1, 1, 6, rt, ft) ||
             Along(r, f, -1, 1, 1, 6, rt, ft) || Along(r, f, 1, -1, 1, 6, rt, ft)) <==>
      (rt, ft) != (r, f) && Abs(rt - r) == Abs(ft - f) && 1 <= rt <= 6 && 1 <= ft <= 6
  {}

  /** The four straight rays of the rook mask, in closed form. */
  lemma RookAlong(r: int, f: int, rt: int, ft: int)
    requires 0 <= r < 8 && 0 <= f < 8 && 0 <= rt < 8 && 0 <= ft < 8
    ensures (Along(r, f, 1, 0, 1, 6, rt, ft) || Along(r, f, -1, 0, 1, 6, rt, ft) ||
             Along(r, f, 0, 1, 1, 6, rt, ft) || Along(r, f, 0, -1, 1, 6, rt, ft)) <==>
      (rt == r && ft != f && 1 <= ft <= 6) || (ft == f && rt != r && 1 <= rt <= 6)
  {}

  /** maskBishopAttacks holds the squares diagonal to the bishop, neither the bishop's own square
      nor any square on the board's edge. */
  lemma BishopMaskAt(s: Square, rt: int, ft: int)
    requires 0 <= rt < 8 && 0 <= ft < 8
    ensures BishopMask(s)[rt * 8 + ft] <==>
      (rt, ft) != (Rank(s), File(s)) && Abs(rt - Rank(s)) == Abs(ft - File(s)) && 1 <= rt <= 6 && 1 <= ft <= 6
  {
    MaskFour(Rank(s), File(s), BishopDirections(), 1, 6, rt, ft);
    BishopAlong(Rank(s), File(s), rt, ft);
  }

  /** maskRookAttacks holds the squares on the rook's rank and file, neither the rook's own square
      nor the last square of any of its four rays. */
  lemma RookMaskAt(s: Square, rt: int, ft: int)
    requires 0 <= rt < 8 && 0 <= ft < 8
    ensures RookMask(s)[rt * 8 + ft] <==>
      (rt == Rank(s) && ft != File(s) && 1 <= ft <= 6) || (ft == File(s) && rt != Rank(s) && 1 <= rt <= 6)
  {
    MaskFour(Rank(s), File(s), RookDirections(), 1, 6, rt, ft);
    RookAlong(Rank(s), File(s), rt, ft);
  }

  // ----- Counting the mask squares -----

  /** Squares the ray loop can still set before the loop condition fails, per coordinate. */
  function Left(x: int, d: int, lo: int, hi: int): int {
    if d > 0 then hi - x + 1 else if d < 0 then x - lo + 1 else 8
  }

  /** The length of a ray loop that meets no blocker, in closed form. */
  function Span(r: int, f: int, dr: int, df: int, lo: int, hi: int): int {
    var n := if Left(r, dr, lo, hi) < Left(f, df, lo, hi) then Left(r, dr, lo, hi) else Left(f, df, lo, hi);
    if n < 0 then 0 else n
  }

  lemma {:induction false} ReachSpan(r: int, f: int, dr: int, df: int, lo: int, hi: int)
    requires Valid(r, f, dr, df, lo, hi)
    ensures Reach(r, f, dr, df, lo, hi, NoSquares()) == Span(r, f, dr, df, lo, hi)
    decreases Room(r, f, dr, df)
  {
    if Inside(r, f, dr, df, lo, hi) {
      InsideOnBoard(r, f, dr, df, lo, hi);
      assert !NoSquares()[r * 8 + f];
      ReachSpan(r + dr, f + df, dr, df, lo, hi);
    }
  }

  /** A ray never comes back to its first square. */
  lemma RayLeaves(r: int, f: int, dr: int, df: int, j: int)
    requires Direction(dr, df) && 0 < j && RayOnBoard(r, f, dr, df, 0)
    ensures RaySquare(r, f, dr, df, j) != r * 8 + f
  {
    if RaySquare(r, f, dr, df, j) == r * 8 + f {
      SameSquare(r + Mul(j, dr), f + Mul(j, df), r, f);
    }
  }

  /** After marking the first square of a ray, the rest of the ray is still clear. */
  lemma FillClearStep(acc: seq<bool>, r: int, f: int, dr: int, df: int, j: int)
    requires |acc| == 64 && Direction(dr, df) && 0 <= j && RayOnBoard(r, f, dr, df, 0)
    requires RayOnBoard(r, f, dr, df, j + 1) && !acc[RaySquare(r, f, dr, df, j + 1)]
    ensures RayOnBoard(r + dr, f + df, dr, df, j) && !acc[r * 8 + f := true][RaySquare(r + dr, f + df, dr, df, j)]
  {
    RayShift(r, f, dr, df, j);
    RayLeaves(r, f, dr, df, j + 1);
  }

  lemma FillFirst(acc: seq<bool>, r: int, f: int, dr: int, df: int, n: int)
    requires |acc| == 64 && 0 < n && 0 <= r < 8 && 0 <= f < 8
    ensures Fill(acc, r, f, dr, df, n) == Fill(acc[r * 8 + f := true], r + dr, f + df, dr, df, n - 1)
  {}

  /** Marking n distinct squares that were clear counts n more. */
  lemma {:induction false} FillCount(acc: seq<bool>, r: int, f: int, dr: int, df: int, n: int)
    requires |acc| == 64 && Direction(dr, df) && 0 <= n
    requires forall j :: 0 <= j < n ==> RayOnBoard(r, f, dr, df, j) && !acc[RaySquare(r, f, dr, df, j)]
    ensures Count(Fill(acc, r, f, dr, df, n)) == Count(acc) + n
    decreases n
  {
    if n > 0 {
      assert RayOnBoard(r, f, dr, df, 0) && !acc[RaySquare(r, f, dr, df, 0)];
      var acc' := acc[r * 8 + f := true];
      var r', f' := r + dr, f + df;
      CountUpdate(acc, r * 8 + f, true);
      forall j | 0 <= j < n - 1
        ensures RayOnBoard(r', f', dr, df, j) && !acc'[RaySquare(r', f', dr, df, j)]
      {
        FillClearStep(acc, r, f, dr, df, j);
      }
      FillCount(acc', r', f', dr, df, n - 1);
      FillFirst(acc, r, f, dr, df, n);
    }
  }

  /** Rays in two different directions from the same square share no square. */
  lemma RaysDisjoint(r: int, f: int, d: (int, int), e: (int, int), rt: int, ft: int, j: int, k: int)
    requires Direction(d.0, d.1) && Direction(e.0, e.1) && 0 <= j && 0 <= k
    requires At(r + d.0, f + d.1, d.0, d.1, j, rt, ft) && At(r + e.0, f + e.1, e.0, e.1, k, rt, ft)
    ensures d == e
  {}

  /** A square set by two ray loops from the same square was set by loops in the same direction. */
  lemma ReachedBoth(r: int, f: int, d: (int, int), e: (int, int), lo: int, hi: int, occ: seq<bool>, rt: int, ft: int)
    requires 0 <= r < 8 && 0 <= f < 8 && Direction(d.0, d.1) && Direction(e.0, e.1)
    requires 0 <= lo && hi <= 7 && |occ| == 64
    requires RayReached(r, f, d, lo, hi, occ, rt, ft) && RayReached(r, f, e, lo, hi, occ, rt, ft)
    ensures d == e
  {
    RaysDisjoint(r, f, d, e, rt, ft, RayPos(r + d.0, f + d.1, d.0, d.1, rt, ft), RayPos(r + e.0, f + e.1, e.0, e.1, rt, ft));
  }

  predicate DistinctDirections(ds: seq<(int, int)>) {
    forall a, b :: 0 <= a < b < |ds| ==> ds[a] != ds[b]
  }

  /** No square any of the rays sets is set in acc. */
  predicate Clear(acc: seq<bool>, r: int, f: int, ds: seq<(int, int)>, lo: int, hi: int, occ: seq<bool>)
    requires 0 <= r < 8 && 0 <= f < 8 && Directions(ds) && 0 <= lo && hi <= 7 && |acc| == 64 && |occ| == 64
  {
    forall k, rt, ft :: 0 <= k < |ds| && 0 <= rt < 8 && 0 <= ft < 8 && RayReached(r, f, ds[k], lo, hi, occ, rt, ft) ==> !acc[rt * 8 + ft]
  }

  /** The number of squares the ray from (r, f) in direction d reaches. */
  function RayLength(r: int, f: int, d: (int, int), lo: int, hi: int, occ: seq<bool>): int
    requires 0 <= r < 8 && 0 <= f < 8 && Direction(d.0, d.1) && 0 <= lo && hi <= 7 && |occ| == 64
  {
    Reach(r + d.0, f + d.1, d.0, d.1, lo, hi, occ)
  }

  function SumReach(r: int, f: int, ds: seq<(int, int)>, lo: int, hi: int, occ: seq<bool>): int
    requires 0 <= r < 8 && 0 <= f < 8 && Directions(ds) && 0 <= lo && hi <= 7 && |occ| == 64
    decreases |ds|
  {
    if ds == [] then 0
    else RayLength(r, f, ds[0], lo, hi, occ) + SumReach(r, f, ds[1..], lo, hi, occ)
  }

  /** One ray loop adds exactly Reach squares when none of them was set. */
  lemma WalkCount(acc: seq<bool>, r: int, f: int, d: (int, int), lo: int, hi: int, occ: seq<bool>)
    requires 0 <= r < 8 && 0 <= f < 8 && Direction(d.0, d.1) && 0 <= lo && hi <= 7 && |acc| == 64 && |occ| == 64
    requires forall rt, ft :: 0 <= rt < 8 && 0 <= ft < 8 && RayReached(r, f, d, lo, hi, occ, rt, ft) ==> !acc[rt * 8 + ft]
    ensures Count(Walk(acc, r + d.0, f + d.1, d.0, d.1, lo, hi, occ)) ==
      Count(acc) + Reach(r + d.0, f + d.1, d.0, d.1, lo, hi, occ)
  {
    var r', f' := r + d.0, f + d.1;
    var n := Reach(r', f', d.0, d.1, lo, hi, occ);
    forall j | 0 <= j < n ensures RayOnBoard(r', f', d.0, d.1, j) && !acc[RaySquare(r', f', d.0, d.1, j)] {
      ReachInside(r', f', d.0, d.1, lo, hi, occ, j);
      var rt, ft := r' + Mul(j, d.0), f' + Mul(j, d.1);
      AtPos(r', f', d.0, d.1, j, rt, ft);
      assert RayReached(r, f, d, lo, hi, occ, rt, ft);
    }
    FillCount(acc, r', f', d.0, d.1, n);
  }

  /** A ray loop does not set a square of a ray in another direction. */
  lemma WalkKeepsClear(acc: seq<bool>, r: int, f: int, d: (int, int), e: (int, int), lo: int, hi: int, occ: seq<bool>, rt: int, ft: int)
    requires 0 <= r < 8 && 0 <= f < 8 && Direction(d.0, d.1) && Direction(e.0, e.1) && d != e
    requires 0 <= lo && hi <= 7 && |acc| == 64 && |occ| == 64 && 0 <= rt < 8 && 0 <= ft < 8
    requires RayReached(r, f, e, lo, hi, occ, rt, ft) && !acc[rt * 8 + ft]
    ensures !Walk(acc, r + d.0, f + d.1, d.0, d.1, lo, hi, occ)[rt * 8 + ft]
  {
    WalkSpec(acc, r + d.0, f + d.1, d.0, d.1, lo, hi, occ, rt, ft);
    if RayReached(r, f, d, lo, hi, occ, rt, ft) {
      ReachedBoth(r, f, d, e, lo, hi, occ, rt, ft);
    }
  }

  /** After one ray loop, the remaining rays still find their squares clear. */
  lemma WalkClear(acc: seq<bool>, r: int, f: int, ds: seq<(int, int)>, lo: int, hi: int, occ: seq<bool>)
    requires 0 <= r < 8 && 0 <= f < 8 && Directions(ds) && ds != [] && 0 <= lo && hi <= 7 && |acc| == 64 && |occ| == 64
    requires DistinctDirections(ds) && Clear(acc, r, f, ds, lo, hi, occ)
    ensures Clear(Walk(acc, r + ds[0].0, f + ds[0].1, ds[0].0, ds[0].1, lo, hi, occ), r, f, ds[1..], lo, hi, occ)
  {
    forall k, rt, ft | 0 <= k < |ds[1..]| && 0 <= rt < 8 && 0 <= ft < 8 && RayReached(r, f, ds[1..][k], lo, hi, occ, rt, ft)
      ensures !Walk(acc, r + ds[0].0, f + ds[0].1, ds[0].0, ds[0].1, lo, hi, occ)[rt * 8 + ft]
    {
      assert ds[1..][k] == ds[k + 1];
      WalkKeepsClear(acc, r, f, ds[0], ds[k + 1], lo, hi, occ, rt, ft);
    }
  }

  /** Rays in distinct directions over clear squares add up their lengths. */
  lemma {:induction false} RaysCount(acc: seq<bool>, r: int, f: int, ds: seq<(int, int)>, lo: int, hi: int, occ: seq<bool>)
    requires 0 <= r < 8 && 0 <= f < 8 && Directions(ds) && 0 <= lo && hi <= 7 && |acc| == 64 && |occ| == 64
    requires DistinctDirections(ds) && Clear(acc, r, f, ds, lo, hi, occ)
    ensures Count(Rays(acc, r, f, ds, lo, hi, occ)) == Count(acc) + SumReach(r, f, ds, lo, hi, occ)
    decreases |ds|
  {
    if ds != [] {
      var d := ds[0];
      forall rt, ft | 0 <= rt < 8 && 0 <= ft < 8 && RayReached(r, f, d, lo, hi, occ, rt, ft) ensures !acc[rt * 8 + ft] {
        assert 0 <= 0 < |ds| && RayReached(r, f, ds[0], lo, hi, occ, rt, ft);
      }
      WalkCount(acc, r, f, d, lo, hi, occ);
      WalkClear(acc, r, f, ds, lo, hi, occ);
      RaysCount(Walk(acc, r + d.0, f + d.1, d.0, d.1, lo, hi, occ), r, f, ds[1..], lo, hi, occ);
    }
  }

  /** The sum of the ray lengths over four directions, written out. */
  lemma SumFour(r: int, f: int, ds: seq<(int, int)>, lo: int, hi: int, occ: seq<bool>)
    requires 0 <= r < 8 && 0 <= f < 8 && Directions(ds) && |ds| == 4 && 0 <= lo && hi <= 7 && |occ| == 64
    ensures SumReach(r, f, ds, lo, hi, occ) ==
      RayLength(r, f, ds[0], lo, hi, occ) + RayLength(r, f, ds[1], lo, hi, occ) +
      RayLength(r, f, ds[2], lo, hi, occ) + RayLength(r, f, ds[3], lo, hi, occ)
  {
    assert ds[0..] == ds && ds[4..] == [];
    SumStep(r, f, ds, 0, lo, hi, occ);
    SumStep(r, f, ds, 1, lo, hi, occ);
    SumStep(r, f, ds, 2, lo, hi, occ);
    SumStep(r, f, ds, 3, lo, hi, occ);
  }

  /** The sum from direction k on is direction k's ray plus the sum from k + 1 on. */
  lemma SumStep(r: int, f: int, ds: seq<(int, int)>, k: int, lo: int, hi: int, occ: seq<bool>)
    requires 0 <= r < 8 && 0 <= f < 8 && Directions(ds) && 0 <= k < |ds| && 0 <= lo && hi <= 7 && |occ| == 64
    ensures SumReach(r, f, ds[k..], lo, hi, occ) == RayLength(r, f, ds[k], lo, hi, occ) + SumReach(r, f, ds[k + 1..], lo, hi, occ)
  {
    assert ds[k..][0] == ds[k] && ds[k..][1..] == ds[k + 1..];
  }

  /** No ray finds a square set in an empty accumulator. */
  lemma ClearEmpty(r: int, f: int, ds: seq<(int, int)>, lo: int, hi: int, occ: seq<bool>)
    requires 0 <= r < 8 && 0 <= f < 8 && Directions(ds) && 0 <= lo && hi <= 7 && |occ| == 64
    ensures Clear(NoSquares(), r, f, ds, lo, hi, occ)
  {
    forall k, rt, ft | 0 <= k < |ds| && 0 <= rt < 8 && 0 <= ft < 8 && RayReached(r, f, ds[k], lo, hi, occ, rt, ft)
      ensures !NoSquares()[rt * 8 + ft]
    {
    }
  }

  lemma MaskRaySpan(r: int, f: int, d: (int, int))
    requires 0 <= r < 8 && 0 <= f < 8 && Direction(d.0, d.1)
    ensures RayLength(r, f, d, 1, 6, NoSquares()) == Span(r + d.0, f + d.1, d.0, d.1, 1, 6)
  {
    ReachSpan(r + d.0, f + d.1, d.0, d.1, 1, 6);
  }

  /** Mask rays in distinct directions over an empty board add up their lengths. */
  lemma MaskCount(r: int, f: int, ds: seq<(int, int)>)
    requires 0 <= r < 8 && 0 <= f < 8 && Directions(ds) && DistinctDirections(ds)
    ensures Count(Rays(NoSquares(), r, f, ds, 1, 6, NoSquares())) == SumReach(r, f, ds, 1, 6, NoSquares())
  {
    CountZero(NoSquares());
    ClearEmpty(r, f, ds, 1, 6, NoSquares());
    RaysCount(NoSquares(), r, f, ds, 1, 6, NoSquares());
  }

  /** bishop_relevant_bits, rank by rank. */
  function BishopRelevantBits(): (t: seq<seq<int>>)
    ensures |t| == 8 && forall r :: 0 <= r < 8 ==> |t[r]| == 8
  {
    [[6, 5, 5, 5, 5, 5, 5, 6],
     [5, 5, 5, 5, 5, 5, 5, 5],
     [5, 5, 7, 7, 7, 7, 5, 5],
     [5, 5, 7, 9, 9, 7, 5, 5],
     [5, 5, 7, 9, 9, 7, 5, 5],
     [5, 5, 7, 7, 7, 7, 5, 5],
     [5, 5, 5, 5, 5, 5, 5, 5],
     [6, 5, 5, 5, 5, 5, 5, 6]]
  }

  /** rook_relevant_bits, rank by rank. */
  function RookRelevantBits(): (t: seq<seq<int>>)
    ensures |t| == 8 && forall r :: 0 <= r < 8 ==> |t[r]| == 8
  {
    [[12, 11, 11, 11, 11, 11, 11, 12],
     [11, 10, 10, 10, 10, 10, 10, 11],
     [11, 10, 10, 10, 10, 10, 10, 11],
     [11, 10, 10, 10, 10, 10, 10, 11],
     [11, 10, 10, 10, 10, 10, 10, 11],
     [11, 10, 10, 10, 10, 10, 10, 11],
     [11, 10, 10, 10, 10, 10, 10, 11],
     [12, 11, 11, 11, 11, 11, 11, 12]]
  }

  /** The entry of bishop_relevant_bits for a square. */
  function BishopBits(s: Square): int {
    BishopRelevantBits()[Rank(s)][File(s)]
  }

  /** The entry of rook_relevant_bits for a square. */
  function RookBits(s: Square): int {
    RookRelevantBits()[Rank(s)][File(s)]
  }

  /** The four bishop mask rays have the lengths of the engine's table. */
  lemma BishopSpans(r: int, f: int)
    requires 0 <= r < 8 && 0 <= f < 8
    ensures Span(r + 1, f + 1, 1, 1, 1, 6) + Span(r - 1, f - 1, -1, -1, 1, 6) +
      Span(r - 1, f + 1, -1, 1, 1, 6) + Span(r + 1, f - 1, 1, -1, 1, 6) == BishopRelevantBits()[r][f]
  {}

  /** The four rook mask rays have the lengths of the engine's table. */
  lemma RookSpans(r: int, f: int)
    requires 0 <= r < 8 && 0 <= f < 8
    ensures Span(r + 1, f, 1, 0, 1, 6) + Span(r - 1, f, -1, 0, 1, 6) +
      Span(r, f + 1, 0, 1, 1, 6) + Span(r, f - 1, 0, -1, 1, 6) == RookRelevantBits()[r][f]
  {}

  lemma BishopRaysCount(r: int, f: int)
    requires 0 <= r < 8 && 0 <= f < 8
    ensures Count(Rays(NoSquares(), r, f, BishopDirections(), 1, 6, NoSquares())) ==
      Span(r + 1, f + 1, 1, 1, 1, 6) + Span(r - 1, f - 1, -1, -1, 1, 6) + Span(r - 1, f + 1, -1, 1, 1, 6) + Span(r + 1, f - 1, 1, -1, 1, 6)
  {
    MaskCount(r, f, BishopDirections());
    SumFour(r, f, BishopDirections(), 1, 6, NoSquares());
    MaskRaySpan(r, f, (1, 1));
    MaskRaySpan(r, f, (-1, -1));
    MaskRaySpan(r, f, (-1, 1));
    MaskRaySpan(r, f, (1, -1));
  }

  lemma RookRaysCount(r: int, f: int)
    requires 0 <= r < 8 && 0 <= f < 8
    ensures Count(Rays(NoSquares(), r, f, RookDirections(), 1, 6, NoSquares())) ==
      Span(r + 1, f, 1, 0, 1, 6) + Span(r - 1, f, -1, 0, 1, 6) + Span(r, f + 1, 0, 1, 1, 6) + Span(r, f - 1, 0, -1, 1, 6)
  {
    MaskCount(r, f, RookDirections());
    SumFour(r, f, RookDirections(), 1, 6, NoSquares());
    MaskRaySpan(r, f, (1, 0));
    MaskRaySpan(r, f, (-1, 0));
    MaskRaySpan(r, f, (0, 1));
    MaskRaySpan(r, f, (0, -1));
  }

  /** maskBishopAttacks has as many squares as bishop_relevant_bits gives for its square. */
  lemma BishopMaskCount(s: Square)
    ensures Count(BishopMask(s)) == BishopBits(s)
  {
    var r, f := Rank(s), File(s);
    Decompose(s);
    BishopRaysCount(r, f);
    BishopSpans(r, f);
  }

  /** maskRookAttacks has as many squares as rook_relevant_bits gives for its square. */
  lemma RookMaskCount(s: Square)
    ensures Count(RookMask(s)) == RookBits(s)
  {
    var r, f := Rank(s), File(s);
    Decompose(s);
    RookRaysCount(r, f);
    RookSpans(r, f);
  }

  // ----- What the on-the-fly attacks contain -----

  /** The first j squares of the ray from (r, f) are on the board and hold no blocker. */
  predicate ClearUpTo(r: int, f: int, dr: int, df: int, occ: seq<bool>, j: int)
    requires |occ| == 64
    decreases j
  {
    j <= 0 || (ClearUpTo(r, f, dr, df, occ, j - 1) && RayOnBoard(r, f, dr, df, j - 1) && !occ[RaySquare(r, f, dr, df, j - 1)])
  }

  /** The squares between (r, f) and the n-th square of its ray are on the board and hold no blocker. */
  predicate ClearBetween(r: int, f: int, dr: int, df: int, occ: seq<bool>, n: int)
    requires |occ| == 64
    decreases n
  {
    n <= 1 || (ClearBetween(r, f, dr, df, occ, n - 1) && RayOnBoard(r, f, dr, df, n - 1) && !occ[RaySquare(r, f, dr, df, n - 1)])
  }

  /** ClearBetween, read square by square. */
  lemma {:induction false} ClearBetweenAll(r: int, f: int, dr: int, df: int, occ: seq<bool>, n: int)
    requires |occ| == 64
    ensures ClearBetween(r, f, dr, df, occ, n) <==>
      forall k :: 1 <= k < n ==> RayOnBoard(r, f, dr, df, k) && !occ[RaySquare(r, f, dr, df, k)]
    decreases n
  {
    if n > 1 {
      ClearBetweenAll(r, f, dr, df, occ, n - 1);
    }
  }

  /** A piece on (r, f) sliding in direction (dr, df) over the blockers occ reaches (rt, ft):
      the square lies on the ray and nothing stands between them. */
  predicate Sees(r: int, f: int, dr: int, df: int, occ: seq<bool>, rt: int, ft: int)
    requires |occ| == 64
  {
    var n := RayPos(r, f, dr, df, rt, ft);
    n >= 1 && At(r, f, dr, df, n, rt, ft) && ClearBetween(r, f, dr, df, occ, n)
  }

  /** The first j + 1 squares of a ray are clear exactly when its first square is and the first j
      squares of the ray from the next square are. */
  lemma {:induction false} ClearShift(r: int, f: int, dr: int, df: int, occ: seq<bool>, j: int)
    requires Direction(dr, df) && |occ| == 64 && 0 <= j
    ensures ClearUpTo(r, f, dr, df, occ, j + 1) <==>
      RayOnBoard(r, f, dr, df, 0) && !occ[RaySquare(r, f, dr, df, 0)] && ClearUpTo(r + dr, f + df, dr, df, occ, j)
    decreases j
  {
    if j > 0 {
      ClearShift(r, f, dr, df, occ, j - 1);
      RayShift(r, f, dr, df, j - 1);
    }
  }

  /** Clear squares counted from the next square are the squares between, counted from (r, f). */
  lemma {:induction false} ClearShiftBetween(r: int, f: int, dr: int, df: int, occ: seq<bool>, j: int)
    requires Direction(dr, df) && |occ| == 64 && 0 <= j
    ensures ClearUpTo(r + dr, f + df, dr, df, occ, j) <==> ClearBetween(r, f, dr, df, occ, j + 1)
    decreases j
  {
    if j > 0 {
      ClearShiftBetween(r, f, dr, df, occ, j - 1);
      RayShift(r, f, dr, df, j - 1);
    }
  }

  /** One step of the ray loop with blockers, in terms of its length. */
  lemma ReachStep(r: int, f: int, dr: int, df: int, occ: seq<bool>)
    requires Valid(r, f, dr, df, 0, 7) && |occ| == 64 && Inside(r, f, dr, df, 0, 7)
    ensures 0 <= r < 8 && 0 <= f < 8 && Valid(r + dr, f + df, dr, df, 0, 7)
    ensures Reach(r, f, dr, df, 0, 7, occ) == if occ[r * 8 + f] then 1 else 1 + Reach(r + dr, f + df, dr, df, 0, 7, occ)
  {
    InsideOnBoard(r, f, dr, df, 0, 7);
  }

  lemma FirstBlockerStep(r: int, f: int, dr: int, df: int, occ: seq<bool>, j: int, len: int, len': int)
    requires Direction(dr, df) && |occ| == 64 && 0 < j && 0 <= r < 8 && 0 <= f < 8
    requires len == if occ[r * 8 + f] then 1 else 1 + len'
    requires !occ[r * 8 + f] ==>
      (j - 1 < len' <==> RayOnBoard(r + dr, f + df, dr, df, j - 1) && ClearUpTo(r + dr, f + df, dr, df, occ, j - 1))
    ensures j < len <==> RayOnBoard(r, f, dr, df, j) && ClearUpTo(r, f, dr, df, occ, j)
  {
    RayShift(r, f, dr, df, j - 1);
    ClearShift(r, f, dr, df, occ, j - 1);
  }

  /** The ray loop with blockers covers the j-th square exactly when that square is on the
      board and no earlier square of the ray holds a blocker: it includes the first blocker
      and nothing beyond it. */
  lemma {:induction false} ReachFirstBlocker(r: int, f: int, dr: int, df: int, occ: seq<bool>, j: int)
    requires Valid(r, f, dr, df, 0, 7) && |occ| == 64 && 0 <= j
    ensures j < Reach(r, f, dr, df, 0, 7, occ) <==> RayOnBoard(r, f, dr, df, j) && ClearUpTo(r, f, dr, df, occ, j)
    decreases Room(r, f, dr, df)
  {
    InsideIsOnBoard(r, f, dr, df);
    if !Inside(r, f, dr, df, 0, 7) {
      if j > 0 {
        ClearShift(r, f, dr, df, occ, j - 1);
      }
    } else if j > 0 {
      ReachStep(r, f, dr, df, occ);
      if !occ[r * 8 + f] {
        ReachFirstBlocker(r + dr, f + df, dr, df, occ, j - 1);
      }
      FirstBlockerStep(r, f, dr, df, occ, j, Reach(r, f, dr, df, 0, 7, occ), Reach(r + dr, f + df, dr, df, 0, 7, occ));
    }
  }

  /** On the whole board, the loop condition holds exactly on the board. */
  lemma InsideIsOnBoard(r: int, f: int, dr: int, df: int)
    requires Valid(r, f, dr, df, 0, 7)
    ensures Inside(r, f, dr, df, 0, 7) <==> RayOnBoard(r, f, dr, df, 0)
  {}

  /** A ray whose length is given by the first blocker covers exactly the squares the piece Sees. */
  lemma WithinSees(r: int, f: int, dr: int, df: int, occ: seq<bool>, rt: int, ft: int, len: int)
    requires Direction(dr, df) && |occ| == 64
    requires var j := RayPos(r, f, dr, df, rt, ft) - 1;
      j >= 0 ==> (j < len <==> RayOnBoard(r + dr, f + df, dr, df, j) && ClearUpTo(r + dr, f + df, dr, df, occ, j))
    ensures Within(r + dr, f + df, dr, df, rt, ft, len) <==> Sees(r, f, dr, df, occ, rt, ft)
  {
    var n := RayPos(r, f, dr, df, rt, ft);
    PosShift(r, f, dr, df, rt, ft);
    if n >= 1 {
      AtShift(r, f, dr, df, n - 1, rt, ft);
      RayShift(r, f, dr, df, n - 1);
      ClearShiftBetween(r, f, dr, df, occ, n - 1);
    }
  }

  /** The on-the-fly ray loop in direction d from (r, f) sets exactly the squares the piece Sees. */
  lemma AttackReached(r: int, f: int, d: (int, int), occ: seq<bool>, rt: int, ft: int)
    requires 0 <= r < 8 && 0 <= f < 8 && Direction(d.0, d.1) && |occ| == 64
    ensures RayReached(r, f, d, 0, 7, occ, rt, ft) <==> Sees(r, f, d.0, d.1, occ, rt, ft)
  {
    var n := RayPos(r, f, d.0, d.1, rt, ft);
    var len := Reach(r + d.0, f + d.1, d.0, d.1, 0, 7, occ);
    if n >= 1 {
      ReachFirstBlocker(r + d.0, f + d.1, d.0, d.1, occ, n - 1);
    }
    WithinSees(r, f, d.0, d.1, occ, rt, ft, len);
  }

  /** The four on-the-fly ray loops from (r, f) set exactly the squares seen along one of the rays. */
  lemma AttackFour(r: int, f: int, ds: seq<(int, int)>, occ: seq<bool>, rt: int, ft: int)
    requires 0 <= r < 8 && 0 <= f < 8 && Directions(ds) && |ds| == 4 && |occ| == 64
    requires 0 <= rt < 8 && 0 <= ft < 8
    ensures Rays(NoSquares(), r, f, ds, 0, 7, occ)[rt * 8 + ft] <==>
      Sees(r, f, ds[0].0, ds[0].1, occ, rt, ft) || Sees(r, f, ds[1].0, ds[1].1, occ, rt, ft) ||
      Sees(r, f, ds[2].0, ds[2].1, occ, rt, ft) || Sees(r, f, ds[3].0, ds[3].1, occ, rt, ft)
  {
    RaysFourAt(r, f, ds, 0, 7, occ, rt, ft);
    AttackReached(r, f, ds[0], occ, rt, ft);
    AttackReached(r, f, ds[1], occ, rt, ft);
    AttackReached(r, f, ds[2], occ, rt, ft);
    AttackReached(r, f, ds[3], occ, rt, ft);
  }

  /** getBishopAttacksOnTheFly sets a square exactly when it lies on one of the bishop's four
      diagonals with no blocker strictly between: each ray ends at its first blocker. */
  lemma BishopAttacksAt(s: Square, occ: seq<bool>, rt: int, ft: int)
    requires |occ| == 64 && 0 <= rt < 8 && 0 <= ft < 8
    ensures BishopAttacks(s, occ)[rt * 8 + ft] <==>
      Sees(Rank(s), File(s), 1, 1, occ, rt, ft) || Sees(Rank(s), File(s), -1, -1, occ, rt, ft) ||
      Sees(Rank(s), File(s), -1, 1, occ, rt, ft) || Sees(Rank(s), File(s), 1, -1, occ, rt, ft)
  {
    Decompose(s);
    AttackFour(Rank(s), File(s), BishopDirections(), occ, rt, ft);
  }

  /** getRookAttacksOnTheFly sets a square exactly when it lies on the rook's rank or file with
      no blocker strictly between: each ray ends at its first blocker. */
  lemma RookAttacksAt(s: Square, occ: seq<bool>, rt: int, ft: int)
    requires |occ| == 64 && 0 <= rt < 8 && 0 <= ft < 8
    ensures RookAttacks(s, occ)[rt * 8 + ft] <==>
      Sees(Rank(s), File(s), 1, 0, occ, rt, ft) || Sees(Rank(s), File(s), -1, 0, occ, rt, ft) ||
      Sees(Rank(s), File(s), 0, 1, occ, rt, ft) || Sees(Rank(s), File(s), 0, -1, occ, rt, ft)
  {
    Decompose(s);
    AttackFour(Rank(s), File(s), RookDirections(), occ, rt, ft);
  }

  /** A sliding piece never sees its own square. */
  lemma SeesNotSelf(r: int, f: int, dr: int, df: int, occ: seq<bool>)
    requires Direction(dr, df) && |occ| == 64
    ensures !Sees(r, f, dr, df, occ, r, f)
  {}

  /** A sliding piece sees the neighbouring square in its direction whatever the blockers. */
  lemma SeesNeighbour(r: int, f: int, dr: int, df: int, occ: seq<bool>)
    requires Direction(dr, df) && 0 <= r + dr < 8 && 0 <= f + df < 8 && |occ| == 64
    ensures Sees(r, f, dr, df, occ, r + dr, f + df)
  {
    AtPos(r, f, dr, df, 1, r + dr, f + df);
  }

  /** getBishopAttacksOnTheFly never contains the bishop's own square. */
  lemma BishopAttacksNotSelf(s: Square, occ: seq<bool>)
    requires |occ| == 64
    ensures !BishopAttacks(s, occ)[Index(s)]
  {
    var r, f := Rank(s), File(s);
    Decompose(s);
    BishopAttacksAt(s, occ, r, f);
    SeesNotSelf(r, f, 1, 1, occ);
    SeesNotSelf(r, f, -1, -1, occ);
    SeesNotSelf(r, f, -1, 1, occ);
    SeesNotSelf(r, f, 1, -1, occ);
  }

  /** getRookAttacksOnTheFly never contains the rook's own square. */
  lemma RookAttacksNotSelf(s: Square, occ: seq<bool>)
    requires |occ| == 64
    ensures !RookAttacks(s, occ)[Index(s)]
  {
    var r, f := Rank(s), File(s);
    Decompose(s);
    RookAttacksAt(s, occ, r, f);
    SeesNotSelf(r, f, 1, 0, occ);
    SeesNotSelf(r, f, -1, 0, occ);
    SeesNotSelf(r, f, 0, 1, occ);
    SeesNotSelf(r, f, 0, -1, occ);
  }

  /** getBishopAttacksOnTheFly is never empty: a diagonal neighbour is always seen. */
  lemma BishopAttacksNonEmpty(s: Square, occ: seq<bool>)
    requires |occ| == 64
    ensures exists i :: 0 <= i < 64 && BishopAttacks(s, occ)[i]
  {
    var r, f := Rank(s), File(s);
    Decompose(s);
    var dr := if r < 7 then 1 else -1;
    var df := if f < 7 then 1 else -1;
    SeesNeighbour(r, f, dr, df, occ);
    BishopAttacksAt(s, occ, r + dr, f + df);
    assert BishopAttacks(s, occ)[(r + dr) * 8 + (f + df)];
  }

  /** getRookAttacksOnTheFly is never empty: a neighbour on the same file is always seen. */
  lemma RookAttacksNonEmpty(s: Square, occ: seq<bool>)
    requires |occ| == 64
    ensures exists i :: 0 <= i < 64 && RookAttacks(s, occ)[i]
  {
    var r, f := Rank(s), File(s);
    Decompose(s);
    var dr := if r < 7 then 1 else -1;
    SeesNeighbour(r, f, dr, 0, occ);
    RookAttacksAt(s, occ, r + dr, f);
    assert RookAttacks(s, occ)[(r + dr) * 8 + f];
  }

  /** A bitboard with a set flag is not zero. */
  lemma NonZero(b: Bitboard, i: int)
    requires 0 <= i < 64 && Members(b)[i]
    ensures b != 0
  {
    MembersEmpty();
  }

  // ----- Blockers outside the relevant mask do not matter -----

  /** Every square between (r, f) and the n-th square of its ray is in m. */
  predicate InMaskBetween(r: int, f: int, dr: int, df: int, m: seq<bool>, n: int)
    requires |m| == 64
    decreases n
  {
    n <= 1 || (InMaskBetween(r, f, dr, df, m, n - 1) && (RayOnBoard(r, f, dr, df, n - 1) ==> m[RaySquare(r, f, dr, df, n - 1)]))
  }

  /** Blockers read through the mask agree with the blockers on the squares inside the mask. */
  lemma {:induction false} ClearMasked(r: int, f: int, dr: int, df: int, occ: seq<bool>, m: seq<bool>, n: int)
    requires |occ| == 64 && |m| == 64 && InMaskBetween(r, f, dr, df, m, n)
    ensures ClearBetween(r, f, dr, df, Intersection(occ, m), n) <==> ClearBetween(r, f, dr, df, occ, n)
    decreases n
  {
    if n > 1 {
      ClearMasked(r, f, dr, df, occ, m, n - 1);
    }
  }

  /** A piece sees the same squares through the mask as without it, when the mask covers the
      squares between it and the target. */
  lemma SeesMasked(r: int, f: int, dr: int, df: int, occ: seq<bool>, m: seq<bool>, rt: int, ft: int)
    requires Direction(dr, df) && |occ| == 64 && |m| == 64
    requires var n := RayPos(r, f, dr, df, rt, ft); n >= 1 && At(r, f, dr, df, n, rt, ft) ==> InMaskBetween(r, f, dr, df, m, n)
    ensures Sees(r, f, dr, df, Intersection(occ, m), rt, ft) <==> Sees(r, f, dr, df, occ, rt, ft)
  {
    var n := RayPos(r, f, dr, df, rt, ft);
    if n >= 1 && At(r, f, dr, df, n, rt, ft) {
      ClearMasked(r, f, dr, df, occ, m, n);
    }
  }

  /** A square strictly inside a diagonal ray that ends on the board lies off the edges. */
  lemma DiagonalInside(r: int, f: int, dr: int, df: int, n: int, k: int)
    requires 0 <= r < 8 && 0 <= f < 8 && Direction(dr, df) && dr != 0 && df != 0 && 1 <= k < n && RayOnBoard(r, f, dr, df, n)
    ensures var rk, fk := r + Mul(k, dr), f + Mul(k, df);
      (rk, fk) != (r, f) && Abs(rk - r) == Abs(fk - f) && 1 <= rk <= 6 && 1 <= fk <= 6
  {}

  /** A square strictly inside a straight ray that ends on the board lies off the edge it runs to. */
  lemma StraightInside(r: int, f: int, dr: int, df: int, n: int, k: int)
    requires 0 <= r < 8 && 0 <= f < 8 && Direction(dr, df) && (dr == 0 || df == 0) && 1 <= k < n && RayOnBoard(r, f, dr, df, n)
    ensures var rk, fk := r + Mul(k, dr), f + Mul(k, df);
      (rk == r && fk != f && 1 <= fk <= 6) || (fk == f && rk != r && 1 <= rk <= 6)
  {}

  /** The bishop mask of a bishop on (r, f), square by square as BishopMaskAt states it. */
  function BishopMaskOf(r: int, f: int): (m: seq<bool>)
    ensures |m| == 64
  {
    seq(64, i requires 0 <= i < 64 =>
      var rt, ft := i / 8, i % 8;
      (rt, ft) != (r, f) && Abs(rt - r) == Abs(ft - f) && 1 <= rt <= 6 && 1 <= ft <= 6)
  }

  /** The rook mask of a rook on (r, f), square by square as RookMaskAt states it. */
  function RookMaskOf(r: int, f: int): (m: seq<bool>)
    ensures |m| == 64
  {
    seq(64, i requires 0 <= i < 64 =>
      var rt, ft := i / 8, i % 8;
      (rt == r && ft != f && 1 <= ft <= 6) || (ft == f && rt != r && 1 <= rt <= 6))
  }

  /** The index of the cell on rank rt and file ft. */
  function Cell(rt: int, ft: int): int { rt * 8 + ft }

  /** Two boards that agree on every cell are equal. */
  lemma SameByCells(m: seq<bool>, n: seq<bool>)
    requires |m| == 64 && |n| == 64
    requires forall rt, ft :: 0 <= rt < 8 && 0 <= ft < 8 ==> m[Cell(rt, ft)] == n[Cell(rt, ft)]
    ensures m == n
  {
    forall i | 0 <= i < 64 ensures m[i] == n[i] {
      assert i == Cell(i / 8, i % 8);
    }
  }

  lemma SquareCoords(rt: int, ft: int)
    requires 0 <= ft < 8
    ensures (rt * 8 + ft) / 8 == rt && (rt * 8 + ft) % 8 == ft
  {}

  /** A board that holds the bishop-mask squares, stated by rank and file, agrees with
      BishopMaskOf at the cell (rt, ft). */
  lemma BishopCell(m: seq<bool>, r: int, f: int, rt: int, ft: int)
    requires |m| == 64 && 0 <= rt < 8 && 0 <= ft < 8
    requires m[rt * 8 + ft] <==> (rt, ft) != (r, f) && Abs(rt - r) == Abs(ft - f) && 1 <= rt <= 6 && 1 <= ft <= 6
    ensures m[Cell(rt, ft)] == BishopMaskOf(r, f)[Cell(rt, ft)]
  {
    SquareCoords(rt, ft);
  }

  lemma BishopMaskIs(s: Square)
    ensures BishopMask(s) == BishopMaskOf(Rank(s), File(s))
  {
    forall rt, ft | 0 <= rt < 8 && 0 <= ft < 8
      ensures BishopMask(s)[Cell(rt, ft)] == BishopMaskOf(Rank(s), File(s))[Cell(rt, ft)]
    {
      BishopMaskAt(s, rt, ft);
      BishopCell(BishopMask(s), Rank(s), File(s), rt, ft);
    }
    SameByCells(BishopMask(s), BishopMaskOf(Rank(s), File(s)));
  }

  /** A board that holds the rook-mask squares, stated by rank and file, agrees with
      RookMaskOf at the cell (rt, ft). */
  lemma RookCell(m: seq<bool>, r: int, f: int, rt: int, ft: int)
    requires |m| == 64 && 0 <= rt < 8 && 0 <= ft < 8
    requires m[rt * 8 + ft] <==> (rt == r && ft != f && 1 <= ft <= 6) || (ft == f && rt != r && 1 <= rt <= 6)
    ensures m[Cell(rt, ft)] == RookMaskOf(r, f)[Cell(rt, ft)]
  {
    SquareCoords(rt, ft);
  }

  lemma RookMaskIs(s: Square)
    ensures RookMask(s) == RookMaskOf(Rank(s), File(s))
  {
    forall rt, ft | 0 <= rt < 8 && 0 <= ft < 8
      ensures RookMask(s)[Cell(rt, ft)] == RookMaskOf(Rank(s), File(s))[Cell(rt, ft)]
    {
      RookMaskAt(s, rt, ft);
      RookCell(RookMask(s), Rank(s), File(s), rt, ft);
    }
    SameByCells(RookMask(s), RookMaskOf(Rank(s), File(s)));
  }

  /** The bishop attacks from (r, f), square by square as BishopAttacksAt states them. */
  function BishopAttacksOf(r: int, f: int, occ: seq<bool>): (m: seq<bool>)
    requires |occ| == 64
    ensures |m| == 64
  {
    seq(64, i requires 0 <= i < 64 =>
      var rt, ft := i / 8, i % 8;
      Sees(r, f, 1, 1, occ, rt, ft) || Sees(r, f, -1, -1, occ, rt, ft) ||
      Sees(r, f, -1, 1, occ, rt, ft) || Sees(r, f, 1, -1, occ, rt, ft))
  }

  /** The rook attacks from (r, f), square by square as RookAttacksAt states them. */
  function RookAttacksOf(r: int, f: int, occ: seq<bool>): (m: seq<bool>)
    requires |occ| == 64
    ensures |m| == 64
  {
    seq(64, i requires 0 <= i < 64 =>
      var rt, ft := i / 8, i % 8;
      Sees(r, f, 1, 0, occ, rt, ft) || Sees(r, f, -1, 0, occ, rt, ft) ||
      Sees(r, f, 0, 1, occ, rt, ft) || Sees(r, f, 0, -1, occ, rt, ft))
  }

  lemma BishopAttacksIsAt(s: Square, occ: seq<bool>, i: int)
    requires |occ| == 64 && 0 <= i < 64
    ensures BishopAttacks(s, occ)[i] == BishopAttacksOf(Rank(s), File(s), occ)[i]
  {
    var rt, ft := i / 8, i % 8;
    assert i == rt * 8 + ft;
    BishopAttacksAt(s, occ, rt, ft);
  }

  lemma BishopAttacksIs(s: Square, occ: seq<bool>)
    requires |occ| == 64
    ensures BishopAttacks(s, occ) == BishopAttacksOf(Rank(s), File(s), occ)
  {
    forall i | 0 <= i < 64 ensures BishopAttacks(s, occ)[i] == BishopAttacksOf(Rank(s), File(s), occ)[i] {
      BishopAttacksIsAt(s, occ, i);
    }
  }

  lemma RookAttacksIsAt(s: Square, occ: seq<bool>, i: int)
    requires |occ| == 64 && 0 <= i < 64
    ensures RookAttacks(s, occ)[i] == RookAttacksOf(Rank(s), File(s), occ)[i]
  {
    var rt, ft := i / 8, i % 8;
    assert i == rt * 8 + ft;
    RookAttacksAt(s, occ, rt, ft);
  }

  lemma RookAttacksIs(s: Square, occ: seq<bool>)
    requires |occ| == 64
    ensures RookAttacks(s, occ) == RookAttacksOf(Rank(s), File(s), occ)
  {
    forall i | 0 <= i < 64 ensures RookAttacks(s, occ)[i] == RookAttacksOf(Rank(s), File(s), occ)[i] {
      RookAttacksIsAt(s, occ, i);
    }
  }

  /** The squares strictly inside a bishop ray that ends on the board are in the bishop's mask. */
  lemma {:induction false} BishopInterior(r: int, f: int, dr: int, df: int, n: int)
    requires 0 <= r < 8 && 0 <= f < 8 && Direction(dr, df) && dr != 0 && df != 0 && 1 <= n && RayOnBoard(r, f, dr, df, n)
    ensures InMaskBetween(r, f, dr, df, BishopMaskOf(r, f), n)
    decreases n
  {
    if n > 1 {
      var k := n - 1;
      DiagonalInside(r, f, dr, df, n, k);
      SquareCoords(r + Mul(k, dr), f + Mul(k, df));
      BishopInterior(r, f, dr, df, k);
    }
  }

  /** The squares strictly inside a rook ray that ends on the board are in the rook's mask. */
  lemma {:induction false} RookInterior(r: int, f: int, dr: int, df: int, n: int)
    requires 0 <= r < 8 && 0 <= f < 8 && Direction(dr, df) && (dr == 0 || df == 0) && 1 <= n && RayOnBoard(r, f, dr, df, n)
    ensures InMaskBetween(r, f, dr, df, RookMaskOf(r, f), n)
    decreases n
  {
    if n > 1 {
      var k := n - 1;
      StraightInside(r, f, dr, df, n, k);
      SquareCoords(r + Mul(k, dr), f + Mul(k, df));
      RookInterior(r, f, dr, df, k);
    }
  }

  lemma BishopSeesMasked(s: Square, dr: int, df: int, occ: seq<bool>, rt: int, ft: int)
    requires Direction(dr, df) && dr != 0 && df != 0 && |occ| == 64
    ensures Sees(Rank(s), File(s), dr, df, Intersection(occ, BishopMask(s)), rt, ft) <==> Sees(Rank(s), File(s), dr, df, occ, rt, ft)
  {
    var r, f := Rank(s), File(s);
    Decompose(s);
    BishopMaskIs(s);
    var n := RayPos(r, f, dr, df, rt, ft);
    if n >= 1 && At(r, f, dr, df, n, rt, ft) {
      BishopInterior(r, f, dr, df, n);
    }
    SeesMasked(r, f, dr, df, occ, BishopMaskOf(r, f), rt, ft);
  }

  lemma RookSeesMasked(s: Square, dr: int, df: int, occ: seq<bool>, rt: int, ft: int)
    requires Direction(dr, df) && (dr == 0 || df == 0) && |occ| == 64
    ensures Sees(Rank(s), File(s), dr, df, Intersection(occ, RookMask(s)), rt, ft) <==> Sees(Rank(s), File(s), dr, df, occ, rt, ft)
  {
    var r, f := Rank(s), File(s);
    Decompose(s);
    RookMaskIs(s);
    var n := RayPos(r, f, dr, df, rt, ft);
    if n >= 1 && At(r, f, dr, df, n, rt, ft) {
      RookInterior(r, f, dr, df, n);
    }
    SeesMasked(r, f, dr, df, occ, RookMaskOf(r, f), rt, ft);
  }

  lemma BishopMaskedAt(s: Square, occ: seq<bool>, rt: int, ft: int)
    requires |occ| == 64 && 0 <= rt < 8 && 0 <= ft < 8
    ensures BishopAttacks(s, Intersection(occ, BishopMask(s)))[rt * 8 + ft] == BishopAttacks(s, occ)[rt * 8 + ft]
  {
    BishopAttacksAt(s, occ, rt, ft);
    BishopAttacksAt(s, Intersection(occ, BishopMask(s)), rt, ft);
    BishopSeesMasked(s, 1, 1, occ, rt, ft);
    BishopSeesMasked(s, -1, -1, occ, rt, ft);
    BishopSeesMasked(s, -1, 1, occ, rt, ft);
    BishopSeesMasked(s, 1, -1, occ, rt, ft);
  }

  lemma RookMaskedAt(s: Square, occ: seq<bool>, rt: int, ft: int)
    requires |occ| == 64 && 0 <= rt < 8 && 0 <= ft < 8
    ensures RookAttacks(s, Intersection(occ, RookMask(s)))[rt * 8 + ft] == RookAttacks(s, occ)[rt * 8 + ft]
  {
    RookAttacksAt(s, occ, rt, ft);
    RookAttacksAt(s, Intersection(occ, RookMask(s)), rt, ft);
    RookSeesMasked(s, 1, 0, occ, rt, ft);
    RookSeesMasked(s, -1, 0, occ, rt, ft);
    RookSeesMasked(s, 0, 1, occ, rt, ft);
    RookSeesMasked(s, 0, -1, occ, rt, ft);
  }

  /** Bishop attacks computed from the blockers inside the relevant mask equal those computed
      from all blockers: this is why the magic tables can be indexed by the masked occupancy. */
  lemma BishopMasked(s: Square, occ: seq<bool>)
    requires |occ| == 64
    ensures BishopAttacks(s, Intersection(occ, BishopMask(s))) == BishopAttacks(s, occ)
  {
    forall rt, ft | 0 <= rt < 8 && 0 <= ft < 8
      ensures BishopAttacks(s, Intersection(occ, BishopMask(s)))[Cell(rt, ft)] == BishopAttacks(s, occ)[Cell(rt, ft)]
    {
      BishopMaskedAt(s, occ, rt, ft);
    }
    SameByCells(BishopAttacks(s, Intersection(occ, BishopMask(s))), BishopAttacks(s, occ));
  }

  /** Rook attacks computed from the blockers inside the relevant mask equal those computed
      from all blockers. */
  lemma RookMasked(s: Square, occ: seq<bool>)
    requires |occ| == 64
    ensures RookAttacks(s, Intersection(occ, RookMask(s))) == RookAttacks(s, occ)
  {
    forall rt, ft | 0 <= rt < 8 && 0 <= ft < 8
      ensures RookAttacks(s, Intersection(occ, RookMask(s)))[Cell(rt, ft)] == RookAttacks(s, occ)[Cell(rt, ft)]
    {
      RookMaskedAt(s, occ, rt, ft);
    }
    SameByCells(RookAttacks(s, Intersection(occ, RookMask(s))), RookAttacks(s, occ));
  }
}
