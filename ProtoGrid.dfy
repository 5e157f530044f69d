/** The Python prototype's precomputed rays and knight jumps (Board.py:6-112). A square is a
    (row, column) pair on a limit-by-limit grid; row 0 is the top of the board. */
module ProtoGrid {
  type Square = (int, int)

  predicate OnGrid(q: Square, limit: int) {
    0 <= q.0 < limit && 0 <= q.1 < limit
  }

  /** A unit step in one of the eight directions. */
  predicate Step(dy: int, dx: int) {
    -1 <= dy <= 1 && -1 <= dx <= 1 && (dy != 0 || dx != 0)
  }

  /** The condition of each ray loop: a coordinate is only bounded on the side it moves toward. */
  predicate Open(y: int, x: int, dy: int, dx: int, limit: int) {
    (dy < 0 ==> y >= 0) && (dy > 0 ==> y < limit) && (dx < 0 ==> x >= 0) && (dx > 0 ==> x < limit)
  }

  /** The room left from coordinate c moving in direction d != 0. */
  function Room(c: int, d: int, limit: int): int {
    if d < 0 then c + 1 else limit - c
  }

  function Min(a: int, b: int): int {
    if a <= b then a else b
  }

  /** How many squares a ray loop appends: the room on each bounded side, the smaller of them. */
  function Reach(y: int, x: int, dy: int, dx: int, limit: int): nat
    requires Step(dy, dx)
  {
    var room :=
      if dy == 0 then Room(x, dx, limit)
      else if dx == 0 then Room(y, dy, limit)
      else Min(Room(y, dy, limit), Room(x, dx, limit));
    if room < 0 then 0 else room
  }

  lemma ReachStep(y: int, x: int, dy: int, dx: int, limit: int)
    requires Step(dy, dx)
    ensures Open(y, x, dy, dx, limit) <==> Reach(y, x, dy, dx, limit) > 0
    ensures Open(y, x, dy, dx, limit) ==> Reach(y + dy, x + dx, dy, dx, limit) == Reach(y, x, dy, dx, limit) - 1
  {}

  /** One ray loop of Board.py: append (y, x) and step by (dy, dx) while the loop condition
      holds. The k-th square is k steps from (y, x), and there are Reach of them. */
  function Walk(y: int, x: int, dy: int, dx: int, limit: int): (r: seq<Square>)
    requires Step(dy, dx)
    ensures |r| == Reach(y, x, dy, dx, limit)
    ensures forall k :: 0 <= k < |r| ==> r[k] == (y + k * dy, x + k * dx)
    decreases Reach(y, x, dy, dx, limit)
  {
    ReachStep(y, x, dy, dx, limit);
    if Open(y, x, dy, dx, limit) then [(y, x)] + Walk(y + dy, x + dx, dy, dx, limit) else []
  }

  /** The directions of getStraightMovesFromPosition: up, down, left, right. */
  const Straight: seq<(int, int)> := [(-1, 0), (1, 0), (0, -1), (0, 1)]

  /** The directions of getDiagonalMovesFromPosition: up-left, up-right, down-right, down-left. */
  const Diagonal: seq<(int, int)> := [(-1, -1), (-1, 1), (1, 1), (1, -1)]

  predicate Compass(dirs: seq<(int, int)>) {
    forall d :: 0 <= d < |dirs| ==> Step(dirs[d].0, dirs[d].1)
  }

  /** One ray per direction, each starting one step away from pos. */
  function Fan(pos: Square, limit: int, dirs: seq<(int, int)>): (r: seq<seq<Square>>)
    requires Compass(dirs)
    ensures |r| == |dirs|
  {
    seq(|dirs|, d requires 0 <= d < |dirs| =>
      Walk(pos.0 + dirs[d].0, pos.1 + dirs[d].1, dirs[d].0, dirs[d].1, limit))
  }

  /** getStraightMovesFromPosition (Board.py:6-42). */
  function StraightMoves(pos: Square, limit: int): (r: seq<seq<Square>>)
    ensures |r| == 4
  {
    Fan(pos, limit, Straight)
  }

  /** getDiagonalMovesFromPosition (Board.py:45-89). */
  function DiagonalMoves(pos: Square, limit: int): (r: seq<seq<Square>>)
    ensures |r| == 4
  {
    Fan(pos, limit, Diagonal)
  }

  /** A ray's shape in direction dir: the k-th square is k+1 steps from pos, and every square
      lies on the grid and is not pos. */
  predicate Outward(r: seq<Square>, pos: Square, dir: (int, int), limit: int) {
    && (forall k :: 0 <= k < |r| ==> r[k] == (pos.0 + (k + 1) * dir.0, pos.1 + (k + 1) * dir.1))
    && (forall q :: q in r ==> OnGrid(q, limit) && q != pos)
  }

  /** Every ray from an on-grid square has that shape. */
  lemma {:induction false} Ray(pos: Square, dy: int, dx: int, limit: int)
    requires Step(dy, dx) && OnGrid(pos, limit)
    ensures Outward(Walk(pos.0 + dy, pos.1 + dx, dy, dx, limit), pos, (dy, dx), limit)
  {
    var r := Walk(pos.0 + dy, pos.1 + dx, dy, dx, limit);
    forall k | 0 <= k < |r|
      ensures r[k] == (pos.0 + (k + 1) * dy, pos.1 + (k + 1) * dx)
      ensures OnGrid(r[k], limit) && r[k] != pos
    {
      var room := if dy == 0 then Room(pos.1 + dx, dx, limit)
        else if dx == 0 then Room(pos.0 + dy, dy, limit)
        else Min(Room(pos.0 + dy, dy, limit), Room(pos.1 + dx, dx, limit));
      assert k < room;
      if dy == -1 { assert r[k].0 == pos.0 - 1 - k; }
      else if dy == 1 { assert r[k].0 == pos.0 + 1 + k; }
      else { assert r[k].0 == pos.0; }
      if dx == -1 { assert r[k].1 == pos.1 - 1 - k; }
      else if dx == 1 { assert r[k].1 == pos.1 + 1 + k; }
      else { assert r[k].1 == pos.1; }
    }
  }

  lemma FanRay(pos: Square, limit: int, dirs: seq<(int, int)>, d: int)
    requires Compass(dirs) && OnGrid(pos, limit) && 0 <= d < |dirs|
    ensures Outward(Fan(pos, limit, dirs)[d], pos, dirs[d], limit)
  {
    var (dy, dx) := dirs[d];
    assert dirs[d] == (dy, dx);
    assert Fan(pos, limit, dirs)[d] == Walk(pos.0 + dy, pos.1 + dx, dy, dx, limit);
    Ray(pos, dy, dx, limit);
  }

  /** The four straight rays from an on-grid square are ordered outward, lie on the grid, exclude
      the square itself, and hold pos.0, limit-1-pos.0, pos.1 and limit-1-pos.1 squares: 2(limit-1)
      in all. */
  lemma StraightRays(pos: Square, limit: int)
    requires OnGrid(pos, limit)
    ensures var r := StraightMoves(pos, limit);
      && (forall d :: 0 <= d < 4 ==> Outward(r[d], pos, Straight[d], limit))
      && |r[0]| == pos.0 && |r[1]| == limit - 1 - pos.0
      && |r[2]| == pos.1 && |r[3]| == limit - 1 - pos.1
      && |r[0]| + |r[1]| + |r[2]| + |r[3]| == 2 * (limit - 1)
  {
    forall d | 0 <= d < 4
      ensures Outward(StraightMoves(pos, limit)[d], pos, Straight[d], limit)
    {
      FanRay(pos, limit, Straight, d);
    }
  }

  /** The four diagonal rays from an on-grid square: the k-th square of each is pos shifted by
      k+1 in both coordinates, every square lies on the grid, and each ray runs until the nearer
      of the two edges it heads for. */
  lemma DiagonalRays(pos: Square, limit: int)
    requires OnGrid(pos, limit)
    ensures var r := DiagonalMoves(pos, limit);
      && (forall d :: 0 <= d < 4 ==> Outward(r[d], pos, Diagonal[d], limit))
      && |r[0]| == Min(pos.0, pos.1)
      && |r[1]| == Min(pos.0, limit - 1 - pos.1)
      && |r[2]| == Min(limit - 1 - pos.0, limit - 1 - pos.1)
      && |r[3]| == Min(limit - 1 - pos.0, pos.1)
  {
    forall d | 0 <= d < 4
      ensures Outward(DiagonalMoves(pos, limit)[d], pos, Diagonal[d], limit)
    {
      FanRay(pos, limit, Diagonal, d);
    }
  }

  /** The eight knight offsets in the order Board.py lists them (Board.py:96-105). */
  function JumpLocations(pos: Square): seq<Square> {
    var (y, x) := pos;
    [(y - 2, x - 1), (y - 2, x + 1), (y + 2, x - 1), (y + 2, x + 1),
     (y - 1, x - 2), (y - 1, x + 2), (y + 1, x - 2), (y + 1, x + 2)]
  }

  /** a is b with some elements dropped, in b's order. */
  predicate Subsequence(a: seq<Square>, b: seq<Square>)
    decreases |b|
  {
    if a == [] then true
    else if b == [] then false
    else (a[0] == b[0] && Subsequence(a[1..], b[1..])) || Subsequence(a, b[1..])
  }

  /** The filtering loop of getHorseyJumpsFromPosition: the on-grid locations, in order. */
  function KeepOnGrid(locs: seq<Square>, limit: int): (r: seq<Square>)
    ensures |r| <= |locs| && Subsequence(r, locs)
    ensures forall q :: q in r <==> q in locs && OnGrid(q, limit)
  {
    if locs == [] then []
    else if OnGrid(locs[0], limit) then [locs[0]] + KeepOnGrid(locs[1..], limit)
    else KeepOnGrid(locs[1..], limit)
  }

  /** getHorseyJumpsFromPosition (Board.py:92-112). */
  function HorseyJumps(pos: Square, limit: int): seq<Square> {
    KeepOnGrid(JumpLocations(pos), limit)
  }

  function Abs(a: int): nat {
    if a < 0 then -a else a
  }

  /** A knight's jump: two rows and one column, or one row and two columns. */
  predicate KnightOffset(pos: Square, q: Square) {
    var (dy, dx) := (Abs(q.0 - pos.0), Abs(q.1 - pos.1));
    (dy == 2 && dx == 1) || (dy == 1 && dx == 2)
  }

  /** The knight jumps are exactly the on-grid squares a knight's jump away, at most eight of
      them, in the listed order. */
  lemma KnightJumps(pos: Square, limit: int)
    ensures var r := HorseyJumps(pos, limit);
      && |r| <= 8 && Subsequence(r, JumpLocations(pos))
      && forall q :: q in r <==> OnGrid(q, limit) && KnightOffset(pos, q)
  {
    var locs := JumpLocations(pos);
    forall q
      ensures q in locs <==> KnightOffset(pos, q)
    {
      if KnightOffset(pos, q) {
        var (y, x) := pos;
        if q.0 - y == -2 && q.1 - x == -1 { assert q == locs[0]; }
        else if q.0 - y == -2 { assert q == locs[1]; }
        else if q.0 - y == 2 && q.1 - x == -1 { assert q == locs[2]; }
        else if q.0 - y == 2 { assert q == locs[3]; }
        else if q.0 - y == -1 && q.1 - x == -2 { assert q == locs[4]; }
        else if q.0 - y == -1 { assert q == locs[5]; }
        else if q.1 - x == -2 { assert q == locs[6]; }
        else { assert q == locs[7]; }
      }
    }
  }
}
