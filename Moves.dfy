// The packed move of engine/main.c and the bounded move list that generateMoves fills.
// A move is a C int holding eight fields: source square in bits 0-5, target square in bits 6-11,
// moving piece in bits 12-15, promoted piece in bits 16-19, and one bit each for capture (20),
// double push (21), en passant (22) and castling (23). The fields never overlap, so the ORs of
// move_encode are sums here and the masks-and-shifts of the getters are divisions and remainders.
module Moves {

  /** A move as move_encode builds it: a value below 2^24. */
  type Move = m: int | 0 <= m < 0x100_0000

  /** A flag argument of move_encode is 0 or 1. */
  predicate IsFlag(x: int) { x == 0 || x == 1 }

  /** The sizes of the eight fields of a move, lowest first: field i holds values below Sizes[i]. */
  const Sizes: seq<int> := [0x40, 0x40, 0x10, 0x10, 2, 2, 2, 2]

  /** Fields packed lowest first: the first field in the low bits and the others shifted above it. */
  function Pack(fields: seq<int>, sizes: seq<int>): int
    requires |fields| == |sizes|
    decreases |fields|
  {
    if fields == [] then 0 else fields[0] + sizes[0] * Pack(fields[1..], sizes[1..])
  }

  /** move_encode: every field shifted into place. */
  function Encode(source: int, target: int, piece: int, promoted: int,
                  capture: int, doublePush: int, enpassant: int, castling: int): (m: Move)
    requires 0 <= source < 64 && 0 <= target < 64 && 0 <= piece < 16 && 0 <= promoted < 16
    requires IsFlag(capture) && IsFlag(doublePush) && IsFlag(enpassant) && IsFlag(castling)
  {
    PackValue(source, target, piece, promoted, capture, doublePush, enpassant, castling);
    Pack([source, target, piece, promoted, capture, doublePush, enpassant, castling], Sizes)
  }

  /** The packed fields are the sum of each field times the size of all the fields below it. */
  lemma {:induction false} PackValue(source: int, target: int, piece: int, promoted: int,
                                     capture: int, doublePush: int, enpassant: int, castling: int)
    ensures Pack([source, target, piece, promoted, capture, doublePush, enpassant, castling], Sizes) ==
      source + target * 0x40 + piece * 0x1000 + promoted * 0x1_0000 +
      capture * 0x10_0000 + doublePush * 0x20_0000 + enpassant * 0x40_0000 + castling * 0x80_0000
  {
    var f := [source, target, piece, promoted, capture, doublePush, enpassant, castling];
    assert Pack(f[8..], Sizes[8..]) == 0;
    assert Pack(f[7..], Sizes[7..]) == castling;
    assert Pack(f[6..], Sizes[6..]) == enpassant + 2 * castling;
    assert Pack(f[5..], Sizes[5..]) == doublePush + 2 * (enpassant + 2 * castling);
    assert Pack(f[4..], Sizes[4..]) == capture + 2 * (doublePush + 2 * (enpassant + 2 * castling));
    assert Pack(f[3..], Sizes[3..]) == promoted + 0x10 * Pack(f[4..], Sizes[4..]);
    assert Pack(f[2..], Sizes[2..]) == piece + 0x10 * Pack(f[3..], Sizes[3..]);
    assert Pack(f[1..], Sizes[1..]) == target + 0x40 * Pack(f[2..], Sizes[2..]);
    assert Pack(f, Sizes) == source + 0x40 * Pack(f[1..], Sizes[1..]);
  }

  /** move_get_source and the other getters: mask the field and shift it down. */
  function Source(m: Move): int { m % 0x40 }
  function Target(m: Move): int { m / 0x40 % 0x40 }
  function Piece(m: Move): int { m / 0x1000 % 0x10 }
  function Promoted(m: Move): int { m / 0x1_0000 % 0x10 }

  /** The flag getters return the masked bit itself; the program only tests it for non-zero. */
  predicate IsCapture(m: Move) { m / 0x10_0000 % 2 == 1 }
  predicate IsDoublePush(m: Move) { m / 0x20_0000 % 2 == 1 }
  predicate IsEnPassant(m: Move) { m / 0x40_0000 % 2 == 1 }
  predicate IsCastling(m: Move) { m / 0x80_0000 % 2 == 1 }

  function FlagOf(b: bool): int { if b then 1 else 0 }

  /** Every getter returns the field it was encoded with; every flag getter is non-zero exactly
      when its flag was 1. */
  lemma EncodeDecode(source: int, target: int, piece: int, promoted: int,
                     capture: int, doublePush: int, enpassant: int, castling: int)
    requires 0 <= source < 64 && 0 <= target < 64 && 0 <= piece < 16 && 0 <= promoted < 16
    requires IsFlag(capture) && IsFlag(doublePush) && IsFlag(enpassant) && IsFlag(castling)
    ensures var m := Encode(source, target, piece, promoted, capture, doublePush, enpassant, castling);
      Source(m) == source && Target(m) == target && Piece(m) == piece && Promoted(m) == promoted &&
      (IsCapture(m) <==> capture == 1) && (IsDoublePush(m) <==> doublePush == 1) &&
      (IsEnPassant(m) <==> enpassant == 1) && (IsCastling(m) <==> castling == 1)
  {
    var m := Encode(source, target, piece, promoted, capture, doublePush, enpassant, castling);
    PackValue(source, target, piece, promoted, capture, doublePush, enpassant, castling);
    var high := doublePush + enpassant * 2 + castling * 4;
    var fields := promoted + capture * 0x10 + high * 0x20;
    assert m == source + 0x40 * (target + 0x40 * (piece + 0x10 * fields));
    assert m / 0x40 == target + 0x40 * (piece + 0x10 * fields);
    assert m / 0x1000 == piece + 0x10 * fields;
    assert m / 0x1_0000 == fields;
    assert m / 0x10_0000 == capture + 2 * high;
    assert m / 0x20_0000 == high;
    assert m / 0x40_0000 == enpassant + 2 * castling;
    assert m / 0x80_0000 == castling;
  }

  /** Conversely, every move is the encoding of its own fields: nothing is lost by decoding. */
  lemma DecodeEncode(m: Move)
    ensures Encode(Source(m), Target(m), Piece(m), Promoted(m), FlagOf(IsCapture(m)),
                   FlagOf(IsDoublePush(m)), FlagOf(IsEnPassant(m)), FlagOf(IsCastling(m))) == m
  {
    PackValue(Source(m), Target(m), Piece(m), Promoted(m), FlagOf(IsCapture(m)),
              FlagOf(IsDoublePush(m)), FlagOf(IsEnPassant(m)), FlagOf(IsCastling(m)));
    Recompose(m);
  }

  /** A value below 2^24 is the sum of its fields, each cut out by a division and a remainder. */
  lemma Recompose(m: int)
    requires 0 <= m < 0x100_0000
    ensures m == m % 0x40 + m / 0x40 % 0x40 * 0x40 + m / 0x1000 % 0x10 * 0x1000 +
      m / 0x1_0000 % 0x10 * 0x1_0000 + m / 0x10_0000 % 2 * 0x10_0000 + m / 0x20_0000 % 2 * 0x20_0000 +
      m / 0x40_0000 % 2 * 0x40_0000 + m / 0x80_0000 % 2 * 0x80_0000
  {
    var a := m / 0x40;
    var b := a / 0x40;
    var c := b / 0x10;
    var d := c / 0x10;
    var e := d / 2;
    var f := e / 2;
    var g := f / 2;
    assert m / 0x1000 == b;
    assert m / 0x1_0000 == c;
    assert m / 0x10_0000 == d;
    assert m / 0x20_0000 == e;
    assert m / 0x40_0000 == f;
    assert m / 0x80_0000 == g;
    assert g < 2;
  }

  /** The `moves` struct: room for 256 moves and the number stored so far. */
  class MoveList {
    var moves: array<Move>
    var count: int

    ghost predicate Valid()
      reads this
    {
      moves.Length == 256 && 0 <= count <= 256
    }

    /** The moves stored so far, in the order they were added. */
    function Contents(): (s: seq<Move>)
      reads this, moves
      requires Valid()
      ensures |s| == count
    {
      moves[..count]
    }

    constructor ()
      ensures Valid() && fresh(moves) && Contents() == []
    {
      moves := new Move[256];
      count := 0;
    }

    /** Start over with an empty list, as generateMoves does first. */
    method Clear()
      requires Valid()
      modifies this`count
      ensures Valid() && Contents() == []
    {
      count := 0;
    }

    /** addMoveToMoveList: store the move after the others. The program does not check the
        capacity; writing past it is undefined, so the model requires room. */
    method Add(m: Move)
      requires Valid() && count < 256
      modifies this`count, moves
      ensures Valid() && Contents() == old(Contents()) + [m]
    {
      moves[count] := m;
      count := count + 1;
    }
  }

  /** Appending two runs of moves one after the other appends their concatenation. */
  lemma AppendTwice(a: seq<Move>, b: seq<Move>, c: seq<Move>)
    ensures (a + b) + c == a + (b + c)
  {}
}
