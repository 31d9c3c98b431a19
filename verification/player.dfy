/**
 The player controller: the falling piece, the single look-ahead piece and the
 gravity countdown. Sideways moves and rotations try a changed copy of the
 falling piece against the board and keep it only when it does not collide.
 */
module Players {
  import opened Catalog
  import Pieces
  import Boards

  /** The gravity interval in milliseconds. */
  const InitialFallTime := 200

  /**
   The timer fields are milliseconds; the source keeps them as doubles, but
   every value they take is a whole number of milliseconds.
   */
  datatype Player = Player(current: Pieces.Piece, next: Pieces.Piece, fallTime: int, fallTimer: int)

  /**
   A controller for board `b`, given the two catalog draws: the first piece is
   centred on the top of the board, the second waits as the next piece.
   */
  function NewPlayer(b: Boards.Board, first: PieceIndex, second: PieceIndex): (pl: Player)
    requires 0 <= b.width
    ensures pl.current.kind == first && pl.current.y == 0 && pl.current.rotation == 0
    ensures pl.current.x == b.width / 2 - 2
    ensures pl.next == Pieces.Spawn(second)
    ensures pl.fallTime == InitialFallTime && pl.fallTimer == pl.fallTime
  {
    Player(Pieces.Center(Pieces.Spawn(first), b.width), Pieces.Spawn(second), InitialFallTime, InitialFallTime)
  }

  /** The colour the falling piece shows at board cell (col, row), 0 where it does not cover it. */
  function At(pl: Player, col: int, row: int): (c: int)
    ensures var lx := col - pl.current.x; var ly := row - pl.current.y;
      c != 0 <==> Pieces.InBox(lx, ly) && MaskOf(pl.current.kind, pl.current.rotation)[ly][lx] == 1
    ensures c == 0 || c == ColorOf(pl.current.kind)
  {
    Pieces.AtAbsolute(pl.current, col, row)
  }

  /** The falling piece would collide after one step in direction d. */
  function CollidesToward(pl: Player, b: Boards.Board, d: Direction): (c: bool)
    requires Boards.WellFormed(b)
    ensures d == Left ==> (c <==> Pieces.Collides(pl.current.(x := pl.current.x - 1), b))
    ensures d == Right ==> (c <==> Pieces.Collides(pl.current.(x := pl.current.x + 1), b))
    ensures d == Up ==> (c <==> Pieces.Collides(pl.current.(y := pl.current.y - 1), b))
    ensures d == Down ==> (c <==> Pieces.Collides(pl.current.(y := pl.current.y + 1), b))
  {
    Pieces.Collides(Pieces.Shifted(pl.current, d), b)
  }

  /**
   Keep `trial` as the falling piece if it fits on the board, otherwise leave
   the controller alone.
   */
  function TryCommit(pl: Player, b: Boards.Board, trial: Pieces.Piece): (r: Player)
    requires Boards.WellFormed(b)
    ensures r == pl || r == pl.(current := trial)
    ensures r.current == trial <==> (trial == pl.current || !Pieces.Collides(trial, b))
    ensures !Pieces.Collides(pl.current, b) ==> !Pieces.Collides(r.current, b)
  {
    if !Pieces.Collides(trial, b) then pl.(current := trial) else pl
  }

  function MoveLeft(pl: Player, b: Boards.Board): (r: Player)
    requires Boards.WellFormed(b)
    ensures r == pl <==> CollidesToward(pl, b, Left)
    ensures r != pl ==> r == pl.(current := pl.current.(x := pl.current.x - 1))
    ensures !Pieces.Collides(pl.current, b) ==> !Pieces.Collides(r.current, b)
  {
    TryCommit(pl, b, Pieces.Shifted(pl.current, Left))
  }

  function MoveRight(pl: Player, b: Boards.Board): (r: Player)
    requires Boards.WellFormed(b)
    ensures r == pl <==> CollidesToward(pl, b, Right)
    ensures r != pl ==> r == pl.(current := pl.current.(x := pl.current.x + 1))
    ensures !Pieces.Collides(pl.current, b) ==> !Pieces.Collides(r.current, b)
  {
    TryCommit(pl, b, Pieces.Shifted(pl.current, Right))
  }

  function RotateLeft(pl: Player, b: Boards.Board): (r: Player)
    requires Boards.WellFormed(b)
    ensures r == pl <==> Pieces.Collides(Pieces.RotateLeft(pl.current), b)
    ensures r != pl ==> r == pl.(current := pl.current.(rotation := (pl.current.rotation + 3) % 4))
    ensures !Pieces.Collides(pl.current, b) ==> !Pieces.Collides(r.current, b)
  {
    Pieces.RotationHasOrderFour(pl.current);
    TryCommit(pl, b, Pieces.RotateLeft(pl.current))
  }

  function RotateRight(pl: Player, b: Boards.Board): (r: Player)
    requires Boards.WellFormed(b)
    ensures r == pl <==> Pieces.Collides(Pieces.RotateRight(pl.current), b)
    ensures r != pl ==> r == pl.(current := pl.current.(rotation := (pl.current.rotation + 1) % 4))
    ensures !Pieces.Collides(pl.current, b) ==> !Pieces.Collides(r.current, b)
  {
    Pieces.RotationHasOrderFour(pl.current);
    TryCommit(pl, b, Pieces.RotateRight(pl.current))
  }

  /** An accepted move or rotation is undone by the opposite command. */
  lemma MoveLeftThenRightRestores(pl: Player, b: Boards.Board)
    requires Boards.WellFormed(b)
    requires !Pieces.Collides(pl.current, b)
    ensures MoveLeft(pl, b) != pl ==> MoveRight(MoveLeft(pl, b), b) == pl
  {
  }

  lemma RotateLeftThenRightRestores(pl: Player, b: Boards.Board)
    requires Boards.WellFormed(b)
    requires !Pieces.Collides(pl.current, b)
    ensures RotateLeft(pl, b) != pl ==> RotateRight(RotateLeft(pl, b), b) == pl
  {
  }
}
