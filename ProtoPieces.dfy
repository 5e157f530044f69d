/** The pieces of the Python prototype (Pieces.py): one class for all six kinds, the kind held
    in a field, as the subclasses of Piece differ only in their move rules (modelled in
    ProtoRules and ProtoBoard). */
module ProtoPieces {
  import opened ProtoGrid

  /** The PieceEnum values (Pieces.py:4-10). */
  const Rook := 0
  const Knight := 1
  const Bishop := 2
  const Queen := 3
  const King := 4
  const Pawn := 5

  const White := 0
  const Black := 1

  /** The fields of one piece object at one moment. */
  datatype PieceState = PieceState(
    position: Square,
    kind: int,
    color: int,
    hasMoved: bool,
    canBePassanted: bool,
    captured: bool,
    legalMoves: seq<Square>)

  /** setPosition applied to a piece's fields (Pieces.py:28-37): the position always changes; only
      a move that marks the piece sets hasMoved, which never goes back, and decides canBePassanted
      by whether the row changed by exactly two. Nothing else changes. */
  function Placed(s: PieceState, to: Square, mark: bool): (r: PieceState)
    ensures r.position == to
    ensures r.kind == s.kind && r.color == s.color && r.captured == s.captured && r.legalMoves == s.legalMoves
    ensures !mark ==> r == s.(position := to)
    ensures mark ==> r.hasMoved && (r.canBePassanted <==> Abs(to.0 - s.position.0) == 2)
    ensures s.hasMoved ==> r.hasMoved
  {
    if mark then s.(position := to, hasMoved := true, canBePassanted := Abs(to.0 - s.position.0) == 2)
    else s.(position := to)
  }

  /** Moving a piece away and back without marking it leaves its fields as they were. */
  lemma PlacedBack(s: PieceState, to: Square)
    ensures Placed(Placed(s, to, false), s.position, false) == s
  {}

  class Piece {
    var position: Square
    const kind: int
    const color: int
    var hasMoved: bool
    var canBePassanted: bool
    /** Set by the board when the piece is taken; never read. */
    var captured: bool
    var legalMoves: seq<Square>

    function State(): PieceState
      reads this
    {
      PieceState(position, kind, color, hasMoved, canBePassanted, captured, legalMoves)
    }

    /** Piece.__init__ (Pieces.py:14-21) and the kind each subclass passes to it. */
    constructor (position: Square, kind: int, color: int)
      ensures State() == PieceState(position, kind, color, false, false, false, [])
    {
      this.position := position;
      this.kind := kind;
      this.color := color;
      hasMoved := false;
      canBePassanted := false;
      captured := false;
      legalMoves := [];
    }

    /** setPosition (Pieces.py:28-37). */
    method SetPosition(to: Square, mark: bool)
      modifies this
      ensures State() == Placed(old(State()), to, mark)
    {
      if mark && !hasMoved {
        hasMoved := true;
      }
      if mark {
        if Abs(to.0 - position.0) == 2 {
          canBePassanted := true;
        } else {
          canBePassanted := false;
        }
      }
      position := to;
    }
  }
}
