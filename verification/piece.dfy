/**
 A falling piece: a catalog entry placed at (x, y), the top-left corner of its
 4x4 box in board coordinates, in one of four rotation states. Pieces are
 values; the controller tries a changed copy and keeps it only if it fits.
 */
module Pieces {
  import opened Catalog
  import Boards

  datatype Piece = Piece(kind: PieceIndex, x: int, y: int, rotation: Rotation)

  /** A piece just drawn from the catalog: at the origin, unrotated. */
  function Spawn(kind: PieceIndex): (p: Piece)
    ensures p.kind == kind
    ensures p.x == 0 && p.y == 0 && p.rotation == 0
  {
    Piece(kind, 0, 0, 0)
  }

  predicate InBox(lx: int, ly: int)
  {
    0 <= lx < 4 && 0 <= ly < 4
  }

  /** The colour of the local cell (lx, ly) of the box, 0 when the cell is empty or outside the box. */
  function At(p: Piece, lx: int, ly: int): (c: int)
    ensures !InBox(lx, ly) ==> c == 0
    ensures InBox(lx, ly) ==> (c != 0 <==> MaskOf(p.kind, p.rotation)[ly][lx] == 1)
    ensures c == 0 || c == ColorOf(p.kind)
  {
    CatalogIsTetrominoes(p.kind, p.rotation);
    if InBox(lx, ly) then MaskOf(p.kind, p.rotation)[ly][lx] * ColorOf(p.kind) else 0
  }

  /** The piece's colour at board cell (col, row), 0 when the piece does not cover it. */
  function AtAbsolute(p: Piece, col: int, row: int): (c: int)
    ensures c != 0 ==> p.x <= col < p.x + 4 && p.y <= row < p.y + 4
    ensures c == 0 || c == ColorOf(p.kind)
  {
    At(p, col - p.x, row - p.y)
  }

  /** Every piece has a filled cell, since every mask has four. */
  lemma SomeFilledCell(p: Piece) returns (lx: int, ly: int)
    ensures InBox(lx, ly) && At(p, lx, ly) != 0
  {
    CatalogIsTetrominoes(p.kind, p.rotation);
    var m := MaskOf(p.kind, p.rotation);
    ly := if RowCount(m[0]) > 0 then 0 else if RowCount(m[1]) > 0 then 1 else if RowCount(m[2]) > 0 then 2 else 3;
    lx := if m[ly][0] == 1 then 0 else if m[ly][1] == 1 then 1 else if m[ly][2] == 1 then 2 else 3;
  }

  /** Reading the piece at its own offset gives back its local cells. */
  lemma AtAbsoluteIsLocalShifted(p: Piece, lx: int, ly: int)
    ensures AtAbsolute(p, p.x + lx, p.y + ly) == At(p, lx, ly)
  {
  }

  function RotateLeft(p: Piece): (r: Piece)
    ensures r.kind == p.kind && r.x == p.x && r.y == p.y
  {
    p.(rotation := if p.rotation == 0 then 3 else p.rotation - 1)
  }

  function RotateRight(p: Piece): (r: Piece)
    ensures r.kind == p.kind && r.x == p.x && r.y == p.y
  {
    p.(rotation := (p.rotation + 1) % 4)
  }

  /** The two rotations undo each other. */
  lemma RotationsAreInverse(p: Piece)
    ensures RotateLeft(RotateRight(p)) == p
    ensures RotateRight(RotateLeft(p)) == p
  {
  }

  /** Four turns in the same direction come back to the start, and no fewer do. */
  lemma RotationHasOrderFour(p: Piece)
    ensures RotateRight(RotateRight(RotateRight(RotateRight(p)))) == p
    ensures RotateLeft(RotateLeft(RotateLeft(RotateLeft(p)))) == p
    ensures RotateRight(p) != p
    ensures RotateRight(RotateRight(p)) != p
    ensures RotateLeft(p) != p
  {
  }

  /**
   Places the 4-wide box in the middle of a board `width` columns wide (the
   source calls this centring vertically, but it sets the column): the margins
   left and right of the box differ by at most one column.
   */
  function Center(p: Piece, width: int): (r: Piece)
    requires 0 <= width
    ensures r.kind == p.kind && r.y == p.y && r.rotation == p.rotation
    ensures var left := r.x; var right := width - (r.x + 4);
      left == right || left + 1 == right
  {
    p.(x := width / 2 - 2)
  }

  /** The piece moved one step in direction d. */
  function Shifted(p: Piece, d: Direction): (r: Piece)
    ensures r.kind == p.kind && r.rotation == p.rotation
    ensures r.x - p.x == DirVector(d).x && r.y - p.y == DirVector(d).y
  {
    p.(x := p.x + DirVector(d).x, y := p.y + DirVector(d).y)
  }

  // ----- collision -----

  /** The filled local cell (lx, ly) lands on an occupied board cell or off the board. */
  predicate Hits(p: Piece, b: Boards.Board, lx: int, ly: int)
    requires Boards.WellFormed(b)
  {
    At(p, lx, ly) != 0 && (Boards.At(b, p.x + lx, p.y + ly) != 0 || !Boards.InRange(b, p.x + lx, p.y + ly))
  }

  /** Some filled cell of the piece is off the board or on an occupied cell. */
  predicate Collides(p: Piece, b: Boards.Board)
    requires Boards.WellFormed(b)
  {
    exists lx, ly | 0 <= lx < 4 && 0 <= ly < 4 :: Hits(p, b, lx, ly)
  }

  /** Every filled cell of the piece is on the board. */
  predicate InBounds(p: Piece, b: Boards.Board)
  {
    forall lx, ly | 0 <= lx < 4 && 0 <= ly < 4 && At(p, lx, ly) != 0 :: Boards.InRange(b, p.x + lx, p.y + ly)
  }

  /** A piece that does not collide has every filled cell on the board, on an empty cell; and conversely. */
  lemma FreeIffInBoundsOnEmpty(p: Piece, b: Boards.Board)
    requires Boards.WellFormed(b)
    ensures !Collides(p, b) <==>
      forall lx, ly | InBox(lx, ly) && At(p, lx, ly) != 0 ::
        Boards.InRange(b, p.x + lx, p.y + ly) && b.state[p.y + ly][p.x + lx] == 0
    ensures !Collides(p, b) ==> InBounds(p, b)
  {
    if !Collides(p, b) {
      forall lx, ly | InBox(lx, ly) && At(p, lx, ly) != 0
        ensures Boards.InRange(b, p.x + lx, p.y + ly) && b.state[p.y + ly][p.x + lx] == 0
      {
        assert !Hits(p, b, lx, ly);
      }
    }
  }

  /** Each filled cell of a piece that fits is on the board and on an empty cell. */
  lemma FreeCellIsEmpty(p: Piece, b: Boards.Board, lx: int, ly: int)
    requires Boards.WellFormed(b)
    requires !Collides(p, b)
    requires InBox(lx, ly) && At(p, lx, ly) != 0
    ensures Boards.InRange(b, p.x + lx, p.y + ly) && b.state[p.y + ly][p.x + lx] == 0
  {
    assert !Hits(p, b, lx, ly);
  }

  /** Whether a piece fits depends on the board's size and contents only through the cells it covers. */
  lemma CollidesOnlyThroughCoveredCells(p: Piece, b: Boards.Board, b': Boards.Board)
    requires Boards.WellFormed(b) && Boards.WellFormed(b')
    requires b.width == b'.width && b.height == b'.height
    requires forall lx, ly | InBox(lx, ly) && At(p, lx, ly) != 0 ::
      Boards.At(b, p.x + lx, p.y + ly) == Boards.At(b', p.x + lx, p.y + ly)
    ensures Collides(p, b) <==> Collides(p, b')
  {
    if Collides(p, b) {
      var lx, ly :| InBox(lx, ly) && Hits(p, b, lx, ly);
      assert Hits(p, b', lx, ly);
    }
    if Collides(p, b') {
      var lx, ly :| InBox(lx, ly) && Hits(p, b', lx, ly);
      assert Hits(p, b, lx, ly);
    }
  }

  /**
   is_colliding: the nested scan over the box, column by column, returning as
   soon as a filled cell hits something.
   */
  method IsColliding(p: Piece, b: Boards.Board) returns (c: bool)
    requires Boards.WellFormed(b)
    ensures c <==> Collides(p, b)
  {
    var x := 0;
    while x < 4
      invariant 0 <= x <= 4
      invariant forall lx, ly | 0 <= lx < x && 0 <= ly < 4 :: !Hits(p, b, lx, ly)
    {
      var y := 0;
      while y < 4
        invariant 0 <= y <= 4
        invariant forall lx, ly | 0 <= lx < x && 0 <= ly < 4 :: !Hits(p, b, lx, ly)
        invariant forall ly | 0 <= ly < y :: !Hits(p, b, x, ly)
      {
        var boardX := p.x + x;
        var boardY := p.y + y;
        if At(p, x, y) != 0 && (Boards.At(b, boardX, boardY) != 0 || !Boards.InRange(b, boardX, boardY)) {
          assert Hits(p, b, x, y);
          return true;
        }
        y := y + 1;
      }
      x := x + 1;
    }
    return false;
  }
}
