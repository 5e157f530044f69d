/** The Python prototype's board (Board.py) as values: the pieces and capturedPieces
    dictionaries as sequences of (name, piece) pairs in insertion order, and the fields of every
    piece object in a map keyed by the object. A piece object shared by two entries shares its
    fields, as in Python. */
module ProtoRules {
  import opened ProtoGrid
  import opened ProtoPieces

  /** Board.dimension. */
  const Size := 8

  type Entry = (string, Piece)

  /** One moveLog value: an ordinary move records the piece and its two squares; a castle
      records the king and the side. */
  datatype LogEntry = Moved(piece: Piece, from: Square, to: Square) | Castled(king: Piece, long: bool)

  datatype Model = Model(
    pieces: seq<Entry>,
    capturedPieces: seq<Entry>,
    attackedSquares: seq<Square>,
    moveLog: map<int, LogEntry>,
    turn: int,
    st: map<Piece, PieceState>)

  // ---------------------------------------------------------------------------------------
  // Dictionaries

  /** No name twice, as in a dictionary. */
  predicate Keyed(es: seq<Entry>) {
    forall i, j :: 0 <= i < |es| && 0 <= j < |es| && i != j ==> es[i].0 != es[j].0
  }

  /** Where name sits in es, or |es| if it is not a key. */
  function KeyIndex(es: seq<Entry>, name: string): (i: nat)
    ensures i <= |es| && (i < |es| ==> es[i].0 == name)
    ensures forall j :: 0 <= j < i ==> es[j].0 != name
  {
    if es == [] then 0
    else if es[0].0 == name then 0
    else 1 + KeyIndex(es[1..], name)
  }

  predicate HasKey(es: seq<Entry>, name: string) {
    KeyIndex(es, name) < |es|
  }

  /** d[name] = piece: replaces the value in place when name is a key, appends otherwise. */
  function Put(es: seq<Entry>, name: string, piece: Piece): seq<Entry> {
    var i := KeyIndex(es, name);
    if i < |es| then es[i := (name, piece)] else es + [(name, piece)]
  }

  /** del d[name]. */
  function Remove(es: seq<Entry>, name: string): seq<Entry> {
    var i := KeyIndex(es, name);
    if i < |es| then es[..i] + es[i + 1..] else es
  }

  lemma HasKeyIff(es: seq<Entry>, name: string)
    ensures HasKey(es, name) <==> exists e :: e in es && e.0 == name
  {
    if exists e :: e in es && e.0 == name {
      var e :| e in es && e.0 == name;
      var k :| 0 <= k < |es| && es[k] == e;
      assert KeyIndex(es, name) <= k;
    }
  }

  /** After d[name] = piece the dictionary holds (name, piece) and every other entry it held. */
  lemma {:induction false} PutKeeps(es: seq<Entry>, name: string, piece: Piece)
    requires Keyed(es)
    ensures Keyed(Put(es, name, piece))
    ensures forall e :: e in Put(es, name, piece) <==> e == (name, piece) || (e in es && e.0 != name)
  {
    var i := KeyIndex(es, name);
    var r := Put(es, name, piece);
    if i == |es| {
      HasKeyIff(es, name);
    } else {
      assert forall k :: 0 <= k < |r| ==> r[k].0 == es[k].0;
      assert r[i] == (name, piece);
      forall e | e in es && e.0 != name
        ensures e in r
      {
        var k :| 0 <= k < |es| && es[k] == e;
        assert r[k] == e;
      }
      forall e | e in r && e != (name, piece)
        ensures e in es && e.0 != name
      {
        var k :| 0 <= k < |r| && r[k] == e;
        assert k != i && es[k] == e;
      }
    }
  }

  /** Adding a new key and deleting it again gives the dictionary back. */
  lemma PutRemove(es: seq<Entry>, name: string, piece: Piece)
    requires !HasKey(es, name)
    ensures Remove(Put(es, name, piece), name) == es
  {
    var c := es + [(name, piece)];
    assert c[|es|].0 == name;
    assert KeyIndex(c, name) == |es|;
    assert c[..|es|] == es;
  }

  /** After del d[name] the dictionary holds every other entry it held, and nothing named name. */
  lemma {:induction false} RemoveKeeps(es: seq<Entry>, name: string)
    requires Keyed(es)
    ensures Keyed(Remove(es, name))
    ensures forall e :: e in Remove(es, name) <==> e in es && e.0 != name
  {
    var i := KeyIndex(es, name);
    var r := Remove(es, name);
    if i < |es| {
      assert r == es[..i] + es[i + 1..];
      forall a, b | 0 <= a < |r| && 0 <= b < |r| && a != b
        ensures r[a].0 != r[b].0
      {
        var a' := if a < i then a else a + 1;
        var b' := if b < i then b else b + 1;
        assert r[a] == es[a'] && r[b] == es[b'];
      }
      forall e | e in es && e.0 != name
        ensures e in r
      {
        var k :| 0 <= k < |es| && es[k] == e;
        if k < i { assert r[k] == e; } else { assert r[k - 1] == e; }
      }
      forall e | e in r
        ensures e in es && e.0 != name
      {
        var k :| 0 <= k < |r| && r[k] == e;
        if k < i { assert es[k] == e; } else { assert es[k + 1] == e; }
      }
    } else {
      HasKeyIff(es, name);
    }
  }

  // ---------------------------------------------------------------------------------------
  // Map updates

  lemma UpdateTwice<K, V>(st: map<K, V>, k: K, a: V, b: V)
    ensures st[k := a][k := b] == st[k := b]
  {}

  lemma UpdateSwap<K, V>(st: map<K, V>, j: K, k: K, a: V, b: V)
    requires j != k
    ensures st[j := a][k := b] == st[k := b][j := a]
  {}

  lemma UpdateSame<K, V>(st: map<K, V>, k: K)
    requires k in st
    ensures st[k := st[k]] == st
  {}

  // ---------------------------------------------------------------------------------------
  // Well-formed boards

  predicate Colored(s: PieceState) {
    s.color == White || s.color == Black
  }

  /** Every entry's object has fields, names are unique within and across the two
      dictionaries, and every piece is white or black. */
  predicate Valid(m: Model) {
    && Keyed(m.pieces) && Keyed(m.capturedPieces)
    && (forall e :: e in m.pieces ==> e.1 in m.st)
    && (forall e :: e in m.capturedPieces ==> e.1 in m.st)
    && (forall e, f :: e in m.pieces && f in m.capturedPieces ==> e.0 != f.0)
    && (forall o :: o in m.st ==> Colored(m.st[o]))
  }

  /** The entries' objects have fields: what the lookups need. */
  predicate Known(m: Model) {
    forall e :: e in m.pieces ==> e.1 in m.st
  }

  /** Piece p's fields after setPosition(to, mark). */
  function SetPos(m: Model, p: Piece, to: Square, mark: bool): Model
    requires p in m.st
  {
    m.(st := m.st[p := Placed(m.st[p], to, mark)])
  }

  // ---------------------------------------------------------------------------------------
  // checkForPieceOnSquare (Board.py:312-317)

  predicate Matches(s: PieceState, square: Square, color: int, anyColor: bool) {
    (s.color == color || anyColor) && s.position == square
  }

  /** The first entry of es that matches, or |es|. */
  function FirstMatch(es: seq<Entry>, st: map<Piece, PieceState>, square: Square, color: int, anyColor: bool): (i: nat)
    requires forall e :: e in es ==> e.1 in st
    ensures i <= |es|
    ensures i < |es| ==> Matches(st[es[i].1], square, color, anyColor)
    ensures forall j :: 0 <= j < i ==> !Matches(st[es[j].1], square, color, anyColor)
  {
    if es == [] then 0
    else if Matches(st[es[0].1], square, color, anyColor) then 0
    else 1 + FirstMatch(es[1..], st, square, color, anyColor)
  }

  /** A lookup's answer: (None, None) or a (name, piece) pair. */
  datatype Hit = Miss | Hit(name: string, piece: Piece)

  function Find(m: Model, square: Square, color: int, anyColor: bool): (r: Hit)
    requires Known(m)
    ensures r.Hit? ==> (r.name, r.piece) in m.pieces
  {
    var i := FirstMatch(m.pieces, m.st, square, color, anyColor);
    if i < |m.pieces| then Hit(m.pieces[i].0, m.pieces[i].1) else Miss
  }

  /** checkForPieceOnSquare(square, anyColor=True). */
  function At(m: Model, square: Square): Hit
    requires Known(m)
  {
    Find(m, square, White, true)
  }

  /** The lookup answers the first entry in dictionary order whose piece stands on the square
      with the asked colour (any colour when anyColor), and (None, None) when there is none. */
  lemma FindFirst(m: Model, square: Square, color: int, anyColor: bool)
    requires Known(m)
    ensures Find(m, square, color, anyColor) == Miss <==>
      forall e :: e in m.pieces ==> !Matches(m.st[e.1], square, color, anyColor)
    ensures Find(m, square, color, anyColor).Hit? ==>
      exists i :: 0 <= i < |m.pieces| && m.pieces[i] == (Find(m, square, color, anyColor).name, Find(m, square, color, anyColor).piece)
        && Matches(m.st[m.pieces[i].1], square, color, anyColor)
        && forall j :: 0 <= j < i ==> !Matches(m.st[m.pieces[j].1], square, color, anyColor)
  {
    var i := FirstMatch(m.pieces, m.st, square, color, anyColor);
    if i == |m.pieces| {
      forall e | e in m.pieces
        ensures !Matches(m.st[e.1], square, color, anyColor)
      {
        var k :| 0 <= k < |m.pieces| && m.pieces[k] == e;
      }
    }
  }

  /** Some piece stands on q. */
  predicate Occupied(m: Model, q: Square)
    requires Known(m)
  {
    exists e :: e in m.pieces && m.st[e.1].position == q
  }

  /** Some piece of another colour than color stands on q. */
  predicate Enemy(m: Model, q: Square, color: int)
    requires Known(m)
  {
    exists e :: e in m.pieces && m.st[e.1].position == q && m.st[e.1].color != color
  }

  /** The first piece found on q belongs to color. */
  predicate Own(m: Model, q: Square, color: int)
    requires Known(m)
  {
    At(m, q).Hit? && m.st[At(m, q).piece].color == color
  }

  lemma AtOccupied(m: Model, q: Square)
    requires Known(m)
    ensures At(m, q) == Miss <==> !Occupied(m, q)
    ensures At(m, q).Hit? ==> (At(m, q).name, At(m, q).piece) in m.pieces && m.st[At(m, q).piece].position == q
  {
    FindFirst(m, q, White, true);
  }

  // ---------------------------------------------------------------------------------------
  // getAttackMoves (Pieces.py)

  /** The table lookups of a piece's moves do not fail: it stands on the board, and a pawn is
      not on its last row (where straights[pos][color] is empty and [0] raises IndexError). */
  predicate CanAttack(s: PieceState) {
    OnGrid(s.position, Size) && Colored(s) &&
    (s.kind == Pawn ==> HasAhead(s.position, s.color))
  }

  /** The columns 0..7 among ds, in order. */
  function OnColumns(ds: seq<Square>): (r: seq<Square>)
    ensures |r| <= |ds|
    ensures forall q :: q in r <==> q in ds && 0 <= q.1 < Size
  {
    if ds == [] then []
    else if 0 <= ds[0].1 < Size then [ds[0]] + OnColumns(ds[1..])
    else OnColumns(ds[1..])
  }

  /** A pawn has a row ahead of it: one up for white, one down for black. */
  predicate HasAhead(pos: Square, color: int) {
    if color == White then pos.0 > 0 else pos.0 < Size - 1
  }

  /** The pawn's diagonals: the square ahead with its column plus one, then minus one. */
  function PawnDiagonals(pos: Square, color: int): seq<Square>
    requires OnGrid(pos, Size) && (color == White || color == Black) && HasAhead(pos, color)
  {
    Ahead(pos, color);
    var ahead := StraightMoves(pos, Size)[color][0];
    [(ahead.0, ahead.1 + 1), (ahead.0, ahead.1 - 1)]
  }

  /** PiecePawn.getAttackMoves (Pieces.py:99-107). */
  function PawnAttacks(pos: Square, color: int): seq<Square>
    requires OnGrid(pos, Size) && (color == White || color == Black) && HasAhead(pos, color)
  {
    OnColumns(PawnDiagonals(pos, color))
  }

  /** The square in front of a pawn is one row up for white and one row down for black. */
  lemma Ahead(pos: Square, color: int)
    requires OnGrid(pos, Size) && (color == White || color == Black)
    ensures StraightMoves(pos, Size)[color] != [] <==> HasAhead(pos, color)
    ensures HasAhead(pos, color) ==>
      StraightMoves(pos, Size)[color][0] == (pos.0 + (if color == White then -1 else 1), pos.1)
  {
    StraightRays(pos, Size);
  }

  /** A pawn attacks exactly the on-board squares one row ahead and one column aside: at most
      two. */
  lemma PawnAttackSquares(pos: Square, color: int)
    requires OnGrid(pos, Size) && (color == White || color == Black) && HasAhead(pos, color)
    ensures |PawnAttacks(pos, color)| <= 2
    ensures forall q :: q in PawnAttacks(pos, color) <==>
      q.0 == pos.0 + (if color == White then -1 else 1) && Abs(q.1 - pos.1) == 1 && 0 <= q.1 < Size
  {
    Ahead(pos, color);
    var row := pos.0 + (if color == White then -1 else 1);
    assert PawnDiagonals(pos, color) == [(row, pos.1 + 1), (row, pos.1 - 1)];
  }

  /** What one square contributes to an attack walk: the square if it is empty or its first
      piece is an enemy. */
  function Reachable(m: Model, q: Square, color: int): seq<Square>
    requires Known(m)
  {
    match At(m, q)
    case Miss => [q]
    case Hit(_, x) => if m.st[x].color != color then [q] else []
  }

  /** The walk along one ray (Pieces.py:131-138): empty squares, then the first occupied square
      if its piece is an enemy, then stop. */
  function RayAttacks(m: Model, ray: seq<Square>, color: int): seq<Square>
    requires Known(m)
  {
    if ray == [] then []
    else if At(m, ray[0]) == Miss then [ray[0]] + RayAttacks(m, ray[1..], color)
    else Reachable(m, ray[0], color)
  }

  function RaysAttacks(m: Model, rays: seq<seq<Square>>, color: int): seq<Square>
    requires Known(m)
  {
    if rays == [] then [] else RayAttacks(m, rays[0], color) + RaysAttacks(m, rays[1..], color)
  }

  /** dir[:1] for every ray: the king's rays. */
  function Heads(rays: seq<seq<Square>>): (r: seq<seq<Square>>)
    ensures |r| == |rays|
    ensures forall d :: 0 <= d < |rays| ==> r[d] == if rays[d] == [] then [] else rays[d][..1]
  {
    seq(|rays|, d requires 0 <= d < |rays| => if rays[d] == [] then [] else rays[d][..1])
  }

  /** The knight's loop (Pieces.py:160-170): every jump square that is empty or holds an enemy
      first. */
  function JumpAttacks(m: Model, jumps: seq<Square>, color: int): seq<Square>
    requires Known(m)
  {
    if jumps == [] then [] else Reachable(m, jumps[0], color) + JumpAttacks(m, jumps[1..], color)
  }

  /** getAttackMoves of each kind; Piece.getAttackMoves of any other kind is []. */
  function AttackMoves(m: Model, p: Piece): seq<Square>
    requires Known(m) && p in m.st && CanAttack(m.st[p])
  {
    var s := m.st[p];
    if s.kind == Pawn then PawnAttacks(s.position, s.color)
    else if s.kind == Rook then RaysAttacks(m, StraightMoves(s.position, Size), s.color)
    else if s.kind == Knight then JumpAttacks(m, HorseyJumps(s.position, Size), s.color)
    else if s.kind == Bishop then RaysAttacks(m, DiagonalMoves(s.position, Size), s.color)
    else if s.kind == Queen then
      RaysAttacks(m, StraightMoves(s.position, Size), s.color) + RaysAttacks(m, DiagonalMoves(s.position, Size), s.color)
    else if s.kind == King then
      RaysAttacks(m, Heads(DiagonalMoves(s.position, Size)), s.color) + RaysAttacks(m, Heads(StraightMoves(s.position, Size)), s.color)
    else []
  }

  /** The k-th square of ray is reached by an attack walk for color: every square before it is
      empty and the first piece on it, if any, is not of color. */
  predicate Walked(m: Model, ray: seq<Square>, k: int, color: int)
    requires Known(m)
  {
    0 <= k < |ray| && (forall j :: 0 <= j < k ==> At(m, ray[j]) == Miss) && !Own(m, ray[k], color)
  }

  /** The walk along a ray yields exactly the squares up to and including the first occupied
      one, that one only when its piece is an enemy, and nothing beyond it. */
  lemma {:induction false} RayAttacksIff(m: Model, ray: seq<Square>, color: int, q: Square)
    requires Known(m)
    ensures q in RayAttacks(m, ray, color) <==> exists k :: Walked(m, ray, k, color) && ray[k] == q
    decreases |ray|
  {
    if ray != [] {
      var rest := ray[1..];
      if At(m, ray[0]) == Miss {
        RayAttacksIff(m, rest, color, q);
        if q in RayAttacks(m, ray, color) {
          if q == ray[0] {
            assert Walked(m, ray, 0, color);
          } else {
            var k :| Walked(m, rest, k, color) && rest[k] == q;
            assert Walked(m, ray, k + 1, color) && ray[k + 1] == q;
          }
        }
        if exists k :: Walked(m, ray, k, color) && ray[k] == q {
          var k :| Walked(m, ray, k, color) && ray[k] == q;
          if k > 0 {
            assert Walked(m, rest, k - 1, color) && rest[k - 1] == q;
          }
        }
      } else {
        if exists k :: Walked(m, ray, k, color) && ray[k] == q {
          var k :| Walked(m, ray, k, color) && ray[k] == q;
          assert k == 0;
        }
        if q in RayAttacks(m, ray, color) {
          assert Walked(m, ray, 0, color);
        }
      }
    }
  }

  lemma {:induction false} RaysAttacksIff(m: Model, rays: seq<seq<Square>>, color: int, q: Square)
    requires Known(m)
    ensures q in RaysAttacks(m, rays, color) <==> exists d :: 0 <= d < |rays| && q in RayAttacks(m, rays[d], color)
    decreases |rays|
  {
    if rays != [] {
      RaysAttacksIff(m, rays[1..], color, q);
      if exists d :: 0 <= d < |rays| && q in RayAttacks(m, rays[d], color) {
        var d :| 0 <= d < |rays| && q in RayAttacks(m, rays[d], color);
        if d > 0 {
          assert rays[1..][d - 1] == rays[d];
        }
      }
      if q in RaysAttacks(m, rays[1..], color) {
        var d :| 0 <= d < |rays| - 1 && q in RayAttacks(m, rays[1..][d], color);
        assert rays[d + 1] == rays[1..][d];
      }
    }
  }

  /** A sliding piece attacks exactly the squares its walk reaches along one of its rays. */
  lemma SliderAttacks(m: Model, p: Piece, q: Square)
    requires Known(m) && p in m.st && CanAttack(m.st[p])
    requires m.st[p].kind == Rook || m.st[p].kind == Bishop || m.st[p].kind == Queen
    ensures var s := m.st[p];
      q in AttackMoves(m, p) <==>
        ((s.kind != Bishop && exists d, k :: 0 <= d < 4 && Walked(m, StraightMoves(s.position, Size)[d], k, s.color) && StraightMoves(s.position, Size)[d][k] == q)
        || (s.kind != Rook && exists d, k :: 0 <= d < 4 && Walked(m, DiagonalMoves(s.position, Size)[d], k, s.color) && DiagonalMoves(s.position, Size)[d][k] == q))
  {
    var s := m.st[p];
    var (straight, diagonal) := (StraightMoves(s.position, Size), DiagonalMoves(s.position, Size));
    RaysAttacksIff(m, straight, s.color, q);
    RaysAttacksIff(m, diagonal, s.color, q);
    forall d | 0 <= d < 4
      ensures q in RayAttacks(m, straight[d], s.color) <==> exists k :: Walked(m, straight[d], k, s.color) && straight[d][k] == q
      ensures q in RayAttacks(m, diagonal[d], s.color) <==> exists k :: Walked(m, diagonal[d], k, s.color) && diagonal[d][k] == q
    {
      RayAttacksIff(m, straight[d], s.color, q);
      RayAttacksIff(m, diagonal[d], s.color, q);
    }
  }

  /** The knight's walk yields exactly the jump squares whose first piece is not its own. */
  lemma {:induction false} JumpAttacksIff(m: Model, jumps: seq<Square>, color: int, q: Square)
    requires Known(m)
    ensures q in JumpAttacks(m, jumps, color) <==> q in jumps && !Own(m, q, color)
    decreases |jumps|
  {
    if jumps != [] {
      JumpAttacksIff(m, jumps[1..], color, q);
      assert q in jumps <==> q == jumps[0] || q in jumps[1..];
    }
  }

  /** A knight attacks exactly the on-board squares a knight's jump away that its own colour
      does not hold. */
  lemma KnightAttacks(m: Model, p: Piece, q: Square)
    requires Known(m) && p in m.st && CanAttack(m.st[p]) && m.st[p].kind == Knight
    ensures q in AttackMoves(m, p) <==> OnGrid(q, Size) && KnightOffset(m.st[p].position, q) && !Own(m, q, m.st[p].color)
  {
    KnightJumps(m.st[p].position, Size);
    JumpAttacksIff(m, HorseyJumps(m.st[p].position, Size), m.st[p].color, q);
  }

  /** q is one of the eight squares around pos. */
  predicate Adjacent(pos: Square, q: Square) {
    Abs(q.0 - pos.0) <= 1 && Abs(q.1 - pos.1) <= 1 && q != pos
  }

  /** The head of a ray from an on-grid square is the neighbour in its direction, and the ray
      is empty exactly when that neighbour is off the board. */
  lemma HeadRay(pos: Square, dirs: seq<(int, int)>, d: int)
    requires Compass(dirs) && OnGrid(pos, Size) && 0 <= d < |dirs|
    ensures var (r, n) := (Fan(pos, Size, dirs)[d], (pos.0 + dirs[d].0, pos.1 + dirs[d].1));
      (r != [] <==> OnGrid(n, Size)) && (r != [] ==> r[0] == n)
  {
    var (dy, dx) := dirs[d];
    assert dirs[d] == (dy, dx);
    assert Fan(pos, Size, dirs)[d] == Walk(pos.0 + dy, pos.1 + dx, dy, dx, Size);
    ReachStep(pos.0 + dy, pos.1 + dx, dy, dx, Size);
  }

  /** The head of ray d is [q] exactly when q is the on-board neighbour in direction d. */
  lemma HeadIs(pos: Square, dirs: seq<(int, int)>, d: int, q: Square)
    requires Compass(dirs) && OnGrid(pos, Size) && 0 <= d < |dirs|
    ensures Heads(Fan(pos, Size, dirs))[d] == [q] <==> q == (pos.0 + dirs[d].0, pos.1 + dirs[d].1) && OnGrid(q, Size)
  {
    HeadRay(pos, dirs, d);
    var r := Fan(pos, Size, dirs)[d];
    if r != [] {
      assert r[..1] == [r[0]];
    }
  }

  /** q is one step from pos in one of the directions. */
  predicate Toward(pos: Square, dirs: seq<(int, int)>, q: Square) {
    exists d :: 0 <= d < |dirs| && q == (pos.0 + dirs[d].0, pos.1 + dirs[d].1)
  }

  /** The eight directions lead exactly to the neighbours. */
  lemma EightWays(pos: Square, q: Square)
    ensures Adjacent(pos, q) <==> Toward(pos, Diagonal, q) || Toward(pos, Straight, q)
  {
    if Adjacent(pos, q) {
      var (dy, dx) := (q.0 - pos.0, q.1 - pos.1);
      if dx == 0 {
        if dy == -1 { assert q == (pos.0 + Straight[0].0, pos.1 + Straight[0].1); }
        else { assert q == (pos.0 + Straight[1].0, pos.1 + Straight[1].1); }
      } else if dy == 0 {
        if dx == -1 { assert q == (pos.0 + Straight[2].0, pos.1 + Straight[2].1); }
        else { assert q == (pos.0 + Straight[3].0, pos.1 + Straight[3].1); }
      } else if dy == -1 {
        if dx == -1 { assert q == (pos.0 + Diagonal[0].0, pos.1 + Diagonal[0].1); }
        else { assert q == (pos.0 + Diagonal[1].0, pos.1 + Diagonal[1].1); }
      } else {
        if dx == 1 { assert q == (pos.0 + Diagonal[2].0, pos.1 + Diagonal[2].1); }
        else { assert q == (pos.0 + Diagonal[3].0, pos.1 + Diagonal[3].1); }
      }
    }
  }

  /** A one-square walk yields the square exactly when its first piece is not of color. */
  lemma HeadAttacks(m: Model, ray: seq<Square>, color: int, q: Square)
    requires Known(m) && |ray| <= 1
    ensures q in RayAttacks(m, ray, color) <==> ray == [q] && !Own(m, q, color)
  {
    RayAttacksIff(m, ray, color, q);
    if ray != [] && exists k :: Walked(m, ray, k, color) && ray[k] == q {
      var k :| Walked(m, ray, k, color) && ray[k] == q;
      assert k == 0;
    }
    if ray == [q] && !Own(m, q, color) {
      assert Walked(m, ray, 0, color);
    }
  }

  /** Some ray of the fan is headed by q exactly when q is an on-board neighbour in one of its
      directions. */
  lemma HeadsToward(pos: Square, dirs: seq<(int, int)>, q: Square)
    requires Compass(dirs) && OnGrid(pos, Size)
    ensures (exists d :: 0 <= d < |dirs| && Heads(Fan(pos, Size, dirs))[d] == [q]) <==> Toward(pos, dirs, q) && OnGrid(q, Size)
  {
    var rays := Heads(Fan(pos, Size, dirs));
    if exists d :: 0 <= d < |dirs| && rays[d] == [q] {
      var d :| 0 <= d < |dirs| && rays[d] == [q];
      HeadIs(pos, dirs, d, q);
    }
    if Toward(pos, dirs, q) && OnGrid(q, Size) {
      var d :| 0 <= d < |dirs| && q == (pos.0 + dirs[d].0, pos.1 + dirs[d].1);
      HeadIs(pos, dirs, d, q);
    }
  }

  /** A walk along rays of at most one square yields exactly their squares whose first piece is
      not of color. */
  lemma HeadsAttacks(m: Model, rays: seq<seq<Square>>, color: int, q: Square)
    requires Known(m) && forall d :: 0 <= d < |rays| ==> |rays[d]| <= 1
    ensures q in RaysAttacks(m, rays, color) <==> (exists d :: 0 <= d < |rays| && rays[d] == [q]) && !Own(m, q, color)
  {
    RaysAttacksIff(m, rays, color, q);
    if q in RaysAttacks(m, rays, color) {
      var d :| 0 <= d < |rays| && q in RayAttacks(m, rays[d], color);
      HeadAttacks(m, rays[d], color, q);
    }
    if (exists d :: 0 <= d < |rays| && rays[d] == [q]) && !Own(m, q, color) {
      var d :| 0 <= d < |rays| && rays[d] == [q];
      HeadAttacks(m, rays[d], color, q);
    }
  }

  /** A king attacks exactly the on-board neighbouring squares its own colour does not hold. */
  lemma KingAttacks(m: Model, p: Piece, q: Square)
    requires Known(m) && p in m.st && CanAttack(m.st[p]) && m.st[p].kind == King
    ensures q in AttackMoves(m, p) <==> OnGrid(q, Size) && Adjacent(m.st[p].position, q) && !Own(m, q, m.st[p].color)
  {
    var s := m.st[p];
    var (a, b) := (RaysAttacks(m, Heads(Fan(s.position, Size, Diagonal)), s.color), RaysAttacks(m, Heads(Fan(s.position, Size, Straight)), s.color));
    assert AttackMoves(m, p) == a + b;
    HeadsAttacks(m, Heads(Fan(s.position, Size, Diagonal)), s.color, q);
    HeadsAttacks(m, Heads(Fan(s.position, Size, Straight)), s.color, q);
    HeadsToward(s.position, Diagonal, q);
    HeadsToward(s.position, Straight, q);
    EightWays(s.position, q);
    assert q in a + b <==> q in a || q in b;
  }

  /** The pieces of color can all be walked. */
  predicate Armed(m: Model, color: int)
    requires Known(m)
  {
    forall e :: e in m.pieces && m.st[e.1].color == color ==> CanAttack(m.st[e.1])
  }

  /** getAttackedSquares' loop (Board.py:306-310): the attack moves of color's pieces, in
      dictionary order. */
  function AttackedFrom(m: Model, es: seq<Entry>, color: int): seq<Square>
    requires Known(m)
    requires forall e :: e in es ==> e.1 in m.st && (m.st[e.1].color == color ==> CanAttack(m.st[e.1]))
  {
    if es == [] then []
    else (if m.st[es[0].1].color == color then AttackMoves(m, es[0].1) else []) + AttackedFrom(m, es[1..], color)
  }

  /** A square is attacked by color exactly when it is an attack move of one of color's pieces. */
  lemma {:induction false} AttackedIff(m: Model, es: seq<Entry>, color: int, q: Square)
    requires Known(m)
    requires forall e :: e in es ==> e.1 in m.st && (m.st[e.1].color == color ==> CanAttack(m.st[e.1]))
    ensures q in AttackedFrom(m, es, color) <==>
      exists e :: e in es && m.st[e.1].color == color && q in AttackMoves(m, e.1)
  {
    if es != [] {
      AttackedIff(m, es[1..], color, q);
      if exists e :: e in es && m.st[e.1].color == color && q in AttackMoves(m, e.1) {
        var e :| e in es && m.st[e.1].color == color && q in AttackMoves(m, e.1);
        if e != es[0] {
          assert e in es[1..];
        }
      }
    }
  }

  // ---------------------------------------------------------------------------------------
  // checkKingUnderAttack (Board.py:194-204)

  function KingKey(color: int): string {
    if color == White then "wK" else "bK"
  }

  /** checkKingUnderAttack(color) can run: the board is valid, pieces["wK"] or pieces["bK"]
      exists (the source raises KeyError otherwise) and belongs to color, and the other side's
      pieces can be walked. */
  predicate Guarded(m: Model, color: int) {
    && Valid(m) && HasKey(m.pieces, KingKey(color))
    && m.st[m.pieces[KeyIndex(m.pieces, KingKey(color))].1].color == color
    && Armed(m, 1 - color)
  }

  function KingOf(m: Model, color: int): Piece
    requires Guarded(m, color)
  {
    m.pieces[KeyIndex(m.pieces, KingKey(color))].1
  }

  /** The board after getAttackedSquares(1 - color), and whether the king's square is in the
      list. */
  function CheckKing(m: Model, color: int): (Model, bool)
    requires Guarded(m, color)
  {
    var attacked := AttackedFrom(m, m.pieces, 1 - color);
    (m.(attackedSquares := attacked), m.st[KingOf(m, color)].position in attacked)
  }

  /** The king is reported under attack exactly when some enemy piece has its square among its
      attack moves; only attackedSquares changes. */
  lemma CheckKingIff(m: Model, color: int)
    requires Guarded(m, color)
    ensures CheckKing(m, color).0 == m.(attackedSquares := CheckKing(m, color).0.attackedSquares)
    ensures CheckKing(m, color).1 <==>
      exists e :: e in m.pieces && m.st[e.1].color == 1 - color && m.st[KingOf(m, color)].position in AttackMoves(m, e.1)
  {
    AttackedIff(m, m.pieces, 1 - color, m.st[KingOf(m, color)].position);
  }


  // ---------------------------------------------------------------------------------------
  // checkCapture (Board.py:293-304)

  predicate Takes(capturer: PieceState, victim: PieceState) {
    capturer.position == victim.position && capturer.color != victim.color
  }

  /** The first entry whose piece the capturer takes, or |es|. */
  function TakenIndex(es: seq<Entry>, st: map<Piece, PieceState>, capturer: PieceState): (i: nat)
    requires forall e :: e in es ==> e.1 in st
    ensures i <= |es|
    ensures i < |es| ==> Takes(capturer, st[es[i].1])
    ensures forall j :: 0 <= j < i ==> !Takes(capturer, st[es[j].1])
  {
    if es == [] then 0
    else if Takes(capturer, st[es[0].1]) then 0
    else 1 + TakenIndex(es[1..], st, capturer)
  }

  /** The entry checkCapture finds for p. */
  function Taken(m: Model, p: Piece): (r: Hit)
    requires Known(m) && p in m.st
    ensures r.Hit? ==> (r.name, r.piece) in m.pieces
  {
    var i := TakenIndex(m.pieces, m.st, m.st[p]);
    if i < |m.pieces| then Hit(m.pieces[i].0, m.pieces[i].1) else Miss
  }

  /** The board once the entry (n, v) is taken: v flagged captured, the entry moved from pieces
      to capturedPieces. */
  function Took(m: Model, n: string, v: Piece): Model
    requires v in m.st
  {
    m.(pieces := Remove(m.pieces, n),
       capturedPieces := Put(m.capturedPieces, n, v),
       st := m.st[v := m.st[v].(captured := true)])
  }

  /** checkCapture(p): the board after it, and the (name, piece) it returns. */
  function Capture(m: Model, p: Piece): (Model, Hit)
    requires Known(m) && p in m.st
  {
    match Taken(m, p)
    case Miss => (m, Miss)
    case Hit(n, v) => (Took(m, n, v), Hit(n, v))
  }

  lemma SameKey(es: seq<Entry>, e: Entry, f: Entry)
    requires Keyed(es) && e in es && f in es && e.0 == f.0
    ensures e == f
  {
    var i :| 0 <= i < |es| && es[i] == e;
    var j :| 0 <= j < |es| && es[j] == f;
  }

  /** Taking an entry of a valid board leaves it valid, removes exactly that name from pieces and
      appends the entry to capturedPieces. */
  lemma {:induction false} TookSpec(m: Model, n: string, v: Piece)
    requires Valid(m) && (n, v) in m.pieces
    ensures Valid(Took(m, n, v))
    ensures forall e :: e in Took(m, n, v).pieces <==> e in m.pieces && e.0 != n
    ensures Took(m, n, v).capturedPieces == m.capturedPieces + [(n, v)]
  {
    var r := Took(m, n, v);
    RemoveKeeps(m.pieces, n);
    PutKeeps(m.capturedPieces, n, v);
    HasKeyIff(m.capturedPieces, n);
    assert r.capturedPieces == m.capturedPieces + [(n, v)];
    forall e, f | e in r.pieces && f in r.capturedPieces
      ensures e.0 != f.0
    {
      assert e in m.pieces;
    }
  }

  /** checkCapture removes at most one piece, and only one of the other colour standing on the
      capturer's square, the first in dictionary order: when there is none the board is
      unchanged; otherwise that entry moves, under the same name, from pieces to the end of
      capturedPieces, every other entry stays, so no piece of the capturer's colour is removed,
      and only the taken piece's captured flag changes among the fields. */
  lemma {:induction false} CaptureSpec(m: Model, p: Piece)
    requires Valid(m) && p in m.st
    ensures var (r, taken) := Capture(m, p);
      && Valid(r)
      && (taken == Miss <==> forall e :: e in m.pieces ==> !Takes(m.st[p], m.st[e.1]))
      && (taken == Miss ==> r == m)
      && (taken.Hit? ==>
            && (taken.name, taken.piece) in m.pieces
            && Takes(m.st[p], m.st[taken.piece])
            && (forall e :: e in r.pieces <==> e in m.pieces && e.0 != taken.name)
            && (forall e :: e in m.pieces && m.st[e.1].color == m.st[p].color ==> e in r.pieces)
            && r.capturedPieces == m.capturedPieces + [(taken.name, taken.piece)]
            && r.st == Flagged(m.st, taken))
  {
    var i := TakenIndex(m.pieces, m.st, m.st[p]);
    if i == |m.pieces| {
      forall e | e in m.pieces
        ensures !Takes(m.st[p], m.st[e.1])
      {
        var k :| 0 <= k < |m.pieces| && m.pieces[k] == e;
      }
    } else {
      var (n, v) := m.pieces[i];
      TookSpec(m, n, v);
      forall e | e in m.pieces && m.st[e.1].color == m.st[p].color
        ensures e.0 != n
      {
        if e.0 == n {
          SameKey(m.pieces, e, (n, v));
        }
      }
    }
  }

  /** The fields after a capture: the taken piece is flagged. */
  function Flagged(st: map<Piece, PieceState>, taken: Hit): map<Piece, PieceState> {
    match taken
    case Miss => st
    case Hit(_, v) => if v in st then st[v := st[v].(captured := true)] else st
  }

  // ---------------------------------------------------------------------------------------
  // simulateMoveForCheck (Board.py:255-268)

  /** Same pieces on the same squares: m2 is valid, holds the entries of m1 (perhaps in another
      order) and the same captured pieces, and every piece has the same square, kind and colour. */
  predicate Layout(m1: Model, m2: Model) {
    && Valid(m2)
    && (forall e :: e in m2.pieces ==> e in m1.pieces)
    && (forall e :: e in m1.pieces ==> e in m2.pieces)
    && m2.capturedPieces == m1.capturedPieces
    && m2.st.Keys == m1.st.Keys
    && (forall o :: o in m1.st ==>
          m2.st[o].position == m1.st[o].position && m2.st[o].kind == m1.st[o].kind && m2.st[o].color == m1.st[o].color)
  }

  /** Layout, and the same hasMoved and canBePassanted flags, moveLog and turn: the board as it
      was up to dictionary order, attackedSquares and the captured and legalMoves fields. */
  predicate Arranged(m1: Model, m2: Model) {
    && Layout(m1, m2)
    && (forall o :: o in m1.st ==>
          m2.st[o].hasMoved == m1.st[o].hasMoved && m2.st[o].canBePassanted == m1.st[o].canBePassanted)
    && m2.moveLog == m1.moveLog && m2.turn == m1.turn
  }

  lemma LayoutTrans(m1: Model, m2: Model, m3: Model)
    requires Layout(m1, m2) && Layout(m2, m3)
    ensures Layout(m1, m3)
  {}

  lemma ArrangedTrans(m1: Model, m2: Model, m3: Model)
    requires Arranged(m1, m2) && Arranged(m2, m3)
    ensures Arranged(m1, m3)
  {}

  /** The king entry of a guarded board is found again in any board with the same entries. */
  lemma {:induction false} KingEntry(m1: Model, m2: Model, color: int)
    requires Guarded(m1, color) && Valid(m2)
    requires m1.pieces[KeyIndex(m1.pieces, KingKey(color))] in m2.pieces
    requires forall e :: e in m2.pieces ==> e in m1.pieces
    ensures HasKey(m2.pieces, KingKey(color))
    ensures m2.pieces[KeyIndex(m2.pieces, KingKey(color))] == m1.pieces[KeyIndex(m1.pieces, KingKey(color))]
  {
    var e := m1.pieces[KeyIndex(m1.pieces, KingKey(color))];
    HasKeyIff(m2.pieces, KingKey(color));
    var f := m2.pieces[KeyIndex(m2.pieces, KingKey(color))];
    SameKey(m1.pieces, e, f);
  }

  /** A check can be run on every board laid out as a guarded one, and finds the same king. */
  lemma {:induction false} LayoutGuarded(m1: Model, m2: Model, color: int)
    requires Guarded(m1, color) && Layout(m1, m2)
    ensures Guarded(m2, color)
    ensures KingOf(m2, color) == KingOf(m1, color)
  {
    KingEntry(m1, m2, color);
  }

  /** What a move probe for p needs: p has fields and the king test for p's colour can run. */
  predicate Movable(m: Model, p: Piece) {
    p in m.st && Guarded(m, m.st[p].color)
  }

  /** A board with the same layout keeps p's probes runnable. */
  lemma LayoutMovable(m1: Model, m2: Model, p: Piece)
    requires Movable(m1, p) && Layout(m1, m2)
    ensures Movable(m2, p)
  {
    LayoutGuarded(m1, m2, m1.st[p].color);
  }

  /** Moving a piece of color keeps the king test for color runnable. */
  lemma SetPosGuarded(m: Model, p: Piece, to: Square, mark: bool, color: int)
    requires Guarded(m, color) && p in m.st && m.st[p].color == color
    ensures Guarded(SetPos(m, p, to, mark), color)
  {
    var m1 := SetPos(m, p, to, mark);
    assert m1.pieces == m.pieces;
    assert forall o :: o in m.st && o != p ==> m1.st[o] == m.st[o];
  }

  /** A piece of color taking what it stands on keeps the king test for color runnable. */
  lemma {:induction false} CaptureGuarded(m: Model, p: Piece, color: int)
    requires Guarded(m, color) && p in m.st && m.st[p].color == color
    ensures Guarded(Capture(m, p).0, color)
  {
    var (m2, taken) := Capture(m, p);
    if taken.Hit? {
      var (n, v) := (taken.name, taken.piece);
      TookSpec(m, n, v);
      assert m.st[v].color != color;
      var k := m.pieces[KeyIndex(m.pieces, KingKey(color))];
      assert k.0 != n by {
        if k.0 == n {
          SameKey(m.pieces, k, (n, v));
        }
      }
      KingEntry(m, m2, color);
      forall e | e in m2.pieces && m2.st[e.1].color == 1 - color
        ensures CanAttack(m2.st[e.1])
      {
        assert e in m.pieces;
        if e.1 == v {
          assert m2.st[v] == m.st[v].(captured := true);
        } else {
          assert m2.st[e.1] == m.st[e.1];
        }
        assert CanAttack(m.st[e.1]);
      }
    }
  }

  /** Moving p and taking what it lands on keeps the king test for p's colour runnable. */
  lemma ProbeGuarded(m: Model, p: Piece, next: Square)
    requires Movable(m, p)
    ensures Guarded(Capture(SetPos(m, p, next, false), p).0, m.st[p].color)
  {
    SetPosGuarded(m, p, next, false, m.st[p].color);
    CaptureGuarded(SetPos(m, p, next, false), p, m.st[p].color);
  }

  /** The dictionaries after the probe puts a taken piece back: pieces[name] = piece (at the
      end) and del capturedPieces[name]. */
  function Reinstate(m: Model, taken: Hit): Model {
    match taken
    case Miss => m
    case Hit(n, v) => m.(pieces := Put(m.pieces, n, v), capturedPieces := Remove(m.capturedPieces, n))
  }

  /** simulateMoveForCheck(p, next): the board after the probe, and whether p's king was
      attacked with p on next and whatever it took there off the board. */
  function Probe(m: Model, p: Piece, next: Square): (Model, bool)
    requires Movable(m, p)
  {
    var s := m.st[p];
    ProbeGuarded(m, p, next);
    var (m2, taken) := Capture(SetPos(m, p, next, false), p);
    var (m3, inCheck) := CheckKing(m2, s.color);
    (SetPos(Reinstate(m3, taken), p, s.position, false), inCheck)
  }

  /** What the probe took, if anything. */
  function ProbeTaken(m: Model, p: Piece, next: Square): Hit
    requires Known(m) && p in m.st
  {
    Capture(SetPos(m, p, next, false), p).1
  }

  /** The pieces dictionary once a taken entry is put back at the end. */
  function Reinstated(es: seq<Entry>, taken: Hit): seq<Entry> {
    match taken
    case Miss => es
    case Hit(n, v) => Put(Remove(es, n), n, v)
  }

  /** The probe's board when the king test left attackedSquares as a: the same steps as Probe with
      the king test's list given. */
  function Restored(m: Model, p: Piece, next: Square, a: seq<Square>): Model
    requires Known(m) && p in m.st
  {
    var (m2, taken) := Capture(SetPos(m, p, next, false), p);
    SetPos(Reinstate(m2.(attackedSquares := a), taken), p, m.st[p].position, false)
  }

  lemma ProbeIsRestored(m: Model, p: Piece, next: Square)
    requires Movable(m, p)
    ensures Probe(m, p, next).0 == Restored(m, p, next, Probe(m, p, next).0.attackedSquares)
  {
    var (m2, taken) := Capture(SetPos(m, p, next, false), p);
    ProbeGuarded(m, p, next);
    assert CheckKing(m2, m.st[p].color).0 == m2.(attackedSquares := CheckKing(m2, m.st[p].color).0.attackedSquares);
  }

  /** A probe never takes the moving piece itself, and what it takes was an entry of pieces. */
  lemma ProbeTakenEntry(m: Model, p: Piece, next: Square)
    requires Known(m) && p in m.st
    ensures var taken := ProbeTaken(m, p, next);
      taken.Hit? ==> taken.piece != p && (taken.name, taken.piece) in m.pieces
  {
    var m1 := SetPos(m, p, next, false);
    var taken := Taken(m1, p);
    if taken.Hit? {
      assert m1.st[taken.piece].color != m1.st[p].color;
    }
  }

  /** The fields after the probe: those of the start but the taken piece's captured flag. */
  lemma RestoredSt(m: Model, p: Piece, next: Square, a: seq<Square>)
    requires Known(m) && p in m.st
    ensures Restored(m, p, next, a).st == Flagged(m.st, ProbeTaken(m, p, next))
  {
    var s := m.st[p];
    var s1 := Placed(s, next, false);
    PlacedBack(s, next);
    ProbeTakenEntry(m, p, next);
    var taken := ProbeTaken(m, p, next);
    var r := Restored(m, p, next, a);
    match taken {
      case Miss =>
        assert r.st == m.st[p := s1][p := s];
        UpdateTwice(m.st, p, s1, s);
        UpdateSame(m.st, p);
      case Hit(n, v) =>
        var f := m.st[v].(captured := true);
        assert r.st == m.st[p := s1][v := f][p := s];
        UpdateSwap(m.st, p, v, s1, f);
        UpdateTwice(m.st[v := f], p, s1, s);
        UpdateSame(m.st[v := f], p);
    }
  }

  /** The dictionaries after the probe: capturedPieces as it was, the taken entry back at the
      end of pieces. */
  lemma RestoredEntries(m: Model, p: Piece, next: Square, a: seq<Square>)
    requires Valid(m) && p in m.st
    ensures var r := Restored(m, p, next, a);
      && r.capturedPieces == m.capturedPieces
      && r.pieces == Reinstated(m.pieces, ProbeTaken(m, p, next))
      && r.moveLog == m.moveLog && r.turn == m.turn
  {
    ProbeTakenEntry(m, p, next);
    var taken := ProbeTaken(m, p, next);
    if taken.Hit? {
      var (n, v) := (taken.name, taken.piece);
      var m1 := SetPos(m, p, next, false);
      assert Capture(m1, p).0 == Took(m1, n, v);
      TookSpec(m1, n, v);
      HasKeyIff(m.capturedPieces, n);
      PutRemove(m.capturedPieces, n, v);
    }
  }

  /** Putting a taken entry back at the end gives the same entries. */
  lemma {:induction false} ReinstatedSame(es: seq<Entry>, n: string, v: Piece)
    requires Keyed(es) && (n, v) in es
    ensures Keyed(Reinstated(es, Hit(n, v)))
    ensures forall e :: e in Reinstated(es, Hit(n, v)) <==> e in es
  {
    RemoveKeeps(es, n);
    PutKeeps(Remove(es, n), n, v);
    forall e | e in es
      ensures e in Reinstated(es, Hit(n, v))
    {
      if e.0 == n {
        SameKey(es, e, (n, v));
      }
    }
  }

  /** A board with the same entries, the same captured pieces, moveLog and turn, and the same
      fields up to captured flags is arranged as the original. */
  lemma Reshuffled(m: Model, r: Model)
    requires Valid(m) && Keyed(r.pieces)
    requires forall e :: e in r.pieces ==> e in m.pieces
    requires forall e :: e in m.pieces ==> e in r.pieces
    requires r.capturedPieces == m.capturedPieces && r.moveLog == m.moveLog && r.turn == m.turn
    requires r.st.Keys == m.st.Keys
    requires forall o :: o in m.st ==> r.st[o].(captured := m.st[o].captured) == m.st[o]
    ensures Arranged(m, r)
  {
    assert forall o :: o in m.st ==> r.st[o].color == r.st[o].(captured := m.st[o].captured).color;
  }

  /** Flagging a piece captured changes no key and no other field. */
  lemma FlaggedFields(st: map<Piece, PieceState>, taken: Hit)
    ensures Flagged(st, taken).Keys == st.Keys
    ensures forall o :: o in st ==> Flagged(st, taken)[o].(captured := st[o].captured) == st[o]
  {}

  /** The probe's pieces dictionary holds the entries it started with. */
  lemma RestoredSame(m: Model, p: Piece, next: Square, a: seq<Square>)
    requires Valid(m) && p in m.st
    ensures var r := Restored(m, p, next, a);
      Keyed(r.pieces) && forall e :: e in r.pieces <==> e in m.pieces
  {
    RestoredEntries(m, p, next, a);
    ProbeTakenEntry(m, p, next);
    var taken := ProbeTaken(m, p, next);
    if taken.Hit? {
      ReinstatedSame(m.pieces, taken.name, taken.piece);
    }
  }

  /** The probe leaves a valid board arranged as the one it started from. */
  lemma RestoredArranged(m: Model, p: Piece, next: Square, a: seq<Square>)
    requires Valid(m) && p in m.st
    ensures Arranged(m, Restored(m, p, next, a))
  {
    var r := Restored(m, p, next, a);
    RestoredSt(m, p, next, a);
    RestoredEntries(m, p, next, a);
    RestoredSame(m, p, next, a);
    FlaggedFields(m.st, ProbeTaken(m, p, next));
    assert Keyed(r.pieces);
    assert forall e :: e in r.pieces ==> e in m.pieces;
    assert forall e :: e in m.pieces ==> e in r.pieces;
    assert r.capturedPieces == m.capturedPieces && r.moveLog == m.moveLog && r.turn == m.turn;
    assert r.st.Keys == m.st.Keys;
    assert forall o :: o in m.st ==> r.st[o].(captured := m.st[o].captured) == m.st[o];
    Reshuffled(m, r);
  }

  /** simulateMoveForCheck puts p back with its fields as they were and the taken piece, if any,
      back at the end of pieces and out of capturedPieces: the fields differ only in the taken
      piece's captured flag, and the board only in dictionary order, attackedSquares and that
      flag. */
  lemma ProbeRestores(m: Model, p: Piece, next: Square)
    requires Movable(m, p)
    ensures var (r, taken) := (Probe(m, p, next).0, ProbeTaken(m, p, next));
      && r.st == Flagged(m.st, taken)
      && (taken.Hit? ==> taken.piece != p)
      && r.pieces == Reinstated(m.pieces, taken)
      && Arranged(m, r)
  {
    var a := Probe(m, p, next).0.attackedSquares;
    ProbeIsRestored(m, p, next);
    RestoredSt(m, p, next, a);
    RestoredEntries(m, p, next, a);
    RestoredArranged(m, p, next, a);
    ProbeTakenEntry(m, p, next);
  }

  // ---------------------------------------------------------------------------------------
  // simulateCastleForCheck (Board.py:269-291)

  /** The king's and the rook's squares after castling from k and q (Board.py:227-232). */
  function CastleSquares(k: Square, q: Square, long: bool): (Square, Square) {
    if long then ((k.0, k.1 - 2), (q.0, q.1 + 3)) else ((k.0, k.1 + 2), (q.0, q.1 - 2))
  }

  lemma CastleGuarded(m: Model, king: Piece, rook: Piece, nk: Square, nq: Square)
    requires Movable(m, king) && rook in m.st && m.st[rook].color == m.st[king].color
    ensures Guarded(SetPos(SetPos(m, king, nk, false), rook, nq, false), m.st[king].color)
  {
    SetPosGuarded(m, king, nk, false, m.st[king].color);
    SetPosGuarded(SetPos(m, king, nk, false), rook, nq, false, m.st[king].color);
  }

  /** simulateCastleForCheck(king, rook, long): move the king two squares and the rook beside it,
      look for an attack on the king, and move both back. */
  function ProbeCastle(m: Model, king: Piece, rook: Piece, long: bool): (Model, bool)
    requires Movable(m, king) && rook in m.st && m.st[rook].color == m.st[king].color
  {
    var (k, q) := (m.st[king].position, m.st[rook].position);
    var (nk, nq) := CastleSquares(k, q, long);
    CastleGuarded(m, king, rook, nk, nq);
    var (m2, inCheck) := CheckKing(SetPos(SetPos(m, king, nk, false), rook, nq, false), m.st[king].color);
    (SetPos(SetPos(m2, king, k, false), rook, q, false), inCheck)
  }

  /** The castle probe's board when the king test left attackedSquares as a. */
  function CastleRestored(m: Model, king: Piece, rook: Piece, long: bool, a: seq<Square>): Model
    requires king in m.st && rook in m.st
  {
    var (k, q) := (m.st[king].position, m.st[rook].position);
    var (nk, nq) := CastleSquares(k, q, long);
    var m2 := SetPos(SetPos(m, king, nk, false), rook, nq, false).(attackedSquares := a);
    SetPos(SetPos(m2, king, k, false), rook, q, false)
  }

  lemma CastleRestoredSame(m: Model, king: Piece, rook: Piece, long: bool, a: seq<Square>)
    requires king in m.st && rook in m.st
    ensures CastleRestored(m, king, rook, long, a) == m.(attackedSquares := a)
  {
    var (sk, sq) := (m.st[king], m.st[rook]);
    var (nk, nq) := CastleSquares(sk.position, sq.position, long);
    var r := CastleRestored(m, king, rook, long, a);
    if king == rook {
      var d := Placed(Placed(Placed(Placed(sk, nk, false), nq, false), sk.position, false), sk.position, false);
      assert r.st == m.st[king := Placed(sk, nk, false)][king := Placed(Placed(sk, nk, false), nq, false)]
        [king := Placed(Placed(Placed(sk, nk, false), nq, false), sk.position, false)][king := d];
      assert d == sk;
    } else {
      var (pk, pq) := (Placed(sk, nk, false), Placed(sq, nq, false));
      PlacedBack(sk, nk);
      PlacedBack(sq, nq);
      assert r.st == m.st[king := pk][rook := pq][king := sk][rook := sq];
      UpdateSwap(m.st, king, rook, pk, pq);
      UpdateTwice(m.st[rook := pq], king, pk, sk);
      UpdateSwap(m.st, rook, king, pq, sk);
      UpdateTwice(m.st[king := sk], rook, pq, sq);
      UpdateSame(m.st, king);
      UpdateSame(m.st, rook);
    }
  }

  /** The castle probe leaves the board exactly as it was but for attackedSquares. */
  lemma ProbeCastleRestores(m: Model, king: Piece, rook: Piece, long: bool)
    requires Movable(m, king) && rook in m.st && m.st[rook].color == m.st[king].color
    ensures var r := ProbeCastle(m, king, rook, long).0;
      r == m.(attackedSquares := r.attackedSquares)
  {
    var (nk, nq) := CastleSquares(m.st[king].position, m.st[rook].position, long);
    var m1 := SetPos(SetPos(m, king, nk, false), rook, nq, false);
    CastleGuarded(m, king, rook, nk, nq);
    var a := CheckKing(m1, m.st[king].color).0.attackedSquares;
    assert CheckKing(m1, m.st[king].color).0 == m1.(attackedSquares := a);
    assert ProbeCastle(m, king, rook, long).0 == CastleRestored(m, king, rook, long, a);
    CastleRestoredSame(m, king, rook, long, a);
  }

  // ---------------------------------------------------------------------------------------
  // movePiece (Board.py:206-224), castle (Board.py:226-235), enPassant (Board.py:237-246)

  /** Python's tuple order a < b. */
  predicate Before(a: Square, b: Square) {
    a.0 < b.0 || (a.0 == b.0 && a.1 < b.1)
  }

  /** castle(king, rook, long). */
  function CastleMove(m: Model, king: Piece, rook: Piece, long: bool): Model
    requires king in m.st && rook in m.st
  {
    var (nk, nq) := CastleSquares(m.st[king].position, m.st[rook].position, long);
    var m1 := m.(moveLog := m.moveLog[m.turn := Castled(king, long)]);
    SetPos(SetPos(m1, king, nk, true), rook, nq, true)
  }

  /** Where enPassant puts the pawn: the square behind the enemy pawn, seen from the pawn's
      side. */
  function EnPassantSquare(m: Model, pawn: Piece, enemy: Piece): Square
    requires pawn in m.st && enemy in m.st
  {
    var e := m.st[enemy].position;
    if m.st[pawn].color == White then (e.0 - 1, e.1) else (e.0 + 1, e.1)
  }

  /** enPassant(pawn, enemyPawn, name). */
  function EnPassantMove(m: Model, pawn: Piece, enemy: Piece, name: string): Model
    requires pawn in m.st && enemy in m.st
  {
    Took(SetPos(m, pawn, EnPassantSquare(m, pawn, enemy), true), name, enemy)
  }

  /** The ordinary branch of movePiece: log the move, move the piece, take what it lands on,
      count the turn. */
  function Ordinary(m: Model, piece: Piece, next: Square): Model
    requires Known(m) && piece in m.st
  {
    var m1 := m.(moveLog := m.moveLog[m.turn := Moved(piece, m.st[piece].position, next)]);
    var m2 := Capture(SetPos(m1, piece, next, true), piece).0;
    m2.(turn := m2.turn + 1)
  }

  /** movePiece(piece, next): a castle when next holds a rook of the piece's colour, en passant
      when a pawn moves onto a pawn on its own row, an ordinary move otherwise. */
  function MovePiece(m: Model, piece: Piece, next: Square): Model
    requires Known(m) && piece in m.st
  {
    var s := m.st[piece];
    AtOccupied(m, next);
    match At(m, next)
    case Miss => Ordinary(m, piece, next)
    case Hit(dn, d) =>
      if m.st[d].kind == Rook && m.st[d].color == s.color then
        CastleMove(m, piece, d, Before(m.st[d].position, s.position))
      else if s.kind == Pawn && m.st[d].kind == Pawn && m.st[d].position.0 == s.position.0 then
        EnPassantMove(m, piece, d, dn)
      else Ordinary(m, piece, next)
  }

  /** movePiece takes its castle or en-passant branch. */
  predicate Special(m: Model, piece: Piece, next: Square)
    requires Known(m) && piece in m.st
  {
    AtOccupied(m, next);
    var s := m.st[piece];
    At(m, next).Hit? &&
    var d := m.st[At(m, next).piece];
    (d.kind == Rook && d.color == s.color) || (s.kind == Pawn && d.kind == Pawn && d.position.0 == s.position.0)
  }

  /** An ordinary move records moveLog[turn] as the piece with its two squares, leaves the piece
      on next marked as moved, and counts exactly one turn; the castle and en-passant branches
      leave turn as it was. */
  lemma MoveLogging(m: Model, piece: Piece, next: Square)
    requires Known(m) && piece in m.st
    ensures var r := MovePiece(m, piece, next);
      && r.turn == m.turn + (if Special(m, piece, next) then 0 else 1)
      && (!Special(m, piece, next) ==>
            && r.moveLog == m.moveLog[m.turn := Moved(piece, m.st[piece].position, next)]
            && r.st[piece].position == next && r.st[piece].hasMoved)
  {
    AtOccupied(m, next);
    if !Special(m, piece, next) {
      var m2 := SetPos(m.(moveLog := m.moveLog[m.turn := Moved(piece, m.st[piece].position, next)]), piece, next, true);
      assert Known(m2);
      var taken := Taken(m2, piece);
      if taken.Hit? {
        assert m2.st[taken.piece].color != m2.st[piece].color;
      }
    }
  }

  /** castle moves the king two columns toward the rook and the rook three columns (long) or
      two (short) toward the king, marks both moved, logs the king and the side, and touches no
      dictionary. */
  lemma CastleSpec(m: Model, king: Piece, rook: Piece, long: bool)
    requires king in m.st && rook in m.st && king != rook
    ensures var r := CastleMove(m, king, rook, long);
      var (k, q) := (m.st[king].position, m.st[rook].position);
      && r.st[king].position == (k.0, k.1 + (if long then -2 else 2))
      && r.st[rook].position == (q.0, q.1 + (if long then 3 else -2))
      && r.st[king].hasMoved && r.st[rook].hasMoved
      && r.moveLog == m.moveLog[m.turn := Castled(king, long)]
      && r.turn == m.turn && r.pieces == m.pieces && r.capturedPieces == m.capturedPieces
  {}

  /** enPassant puts the pawn one row beyond the enemy pawn in its own direction of travel (up
      for white), in the enemy's column, and moves the enemy's entry from pieces to
      capturedPieces. */
  lemma EnPassantSpec(m: Model, pawn: Piece, enemy: Piece, name: string)
    requires Valid(m) && (name, enemy) in m.pieces && pawn in m.st && pawn != enemy
    ensures var r := EnPassantMove(m, pawn, enemy, name);
      var e := m.st[enemy].position;
      && r.st[pawn].position == (e.0 + (if m.st[pawn].color == White then -1 else 1), e.1)
      && r.st[pawn].hasMoved && r.st[enemy].captured
      && r.st[enemy].position == e
      && (forall x :: x in r.pieces <==> x in m.pieces && x.0 != name)
      && r.capturedPieces == m.capturedPieces + [(name, enemy)]
      && r.turn == m.turn
  {
    var e := m.st[enemy].position;
    var to := EnPassantSquare(m, pawn, enemy);
    var m1 := SetPos(m, pawn, to, true);
    assert m1.pieces == m.pieces && m1.capturedPieces == m.capturedPieces;
    TookSpec(m1, name, enemy);
    var r := EnPassantMove(m, pawn, enemy, name);
    assert r.st[pawn] == Placed(m.st[pawn], to, true);
    assert r.st[enemy] == m.st[enemy].(captured := true);
  }
}
