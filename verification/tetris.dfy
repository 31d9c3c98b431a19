/**
 The game state as a whole: the board, the player controller that lives on it,
 and the running flag. Locking a piece touches all three: the piece is written
 into the board, the next piece is promoted, the game is lost if the promoted
 piece collides, and only then are full rows cleared.
 */
module Tetris {
  import opened Catalog
  import Boards
  import Pieces
  import Players

  datatype Game = Game(board: Boards.Board, player: Players.Player, running: bool)

  /** A game on board `b` once the main loop has started, given the first two catalog draws. */
  function Start(b: Boards.Board, first: PieceIndex, second: PieceIndex): (g: Game)
    requires Boards.WellFormed(b)
    ensures g.running && g.board == b
    ensures g.player.current.kind == first && g.player.current.y == 0 && g.player.current.rotation == 0
    ensures g.player.current.x == b.width / 2 - 2
    ensures g.player.next == Pieces.Spawn(second)
    ensures g.player.fallTime == Players.InitialFallTime && g.player.fallTimer == Players.InitialFallTime
  {
    Game(b, Players.NewPlayer(b, first, second), true)
  }

  /** lose: the game stops; the board and the controller stay as they are. */
  function Lose(g: Game): (r: Game)
    ensures !r.running
    ensures r.board == g.board && r.player == g.player
  {
    g.(running := false)
  }

  // ----- writing a piece into the board -----

  /** The board with the piece's filled cells written in its colour. */
  function Stamp(b: Boards.Board, p: Pieces.Piece): (r: Boards.Board)
    requires Boards.WellFormed(b)
    ensures Boards.WellFormed(r) && r.width == b.width && r.height == b.height
    ensures forall row, col | 0 <= row < b.height && 0 <= col < b.width && Pieces.AtAbsolute(p, col, row) != 0 ::
      r.state[row][col] == ColorOf(p.kind)
    ensures forall row, col | 0 <= row < b.height && 0 <= col < b.width && Pieces.AtAbsolute(p, col, row) == 0 ::
      r.state[row][col] == b.state[row][col]
  {
    b.(state := seq(b.height, row requires 0 <= row < b.height =>
      seq(b.width, col requires 0 <= col < b.width =>
        var c := Pieces.AtAbsolute(p, col, row); if c != 0 then c else b.state[row][col])))
  }

  /** On a piece that fits, stamping changes exactly the cells the piece covers. */
  lemma StampWritesExactlyThePiece(b: Boards.Board, p: Pieces.Piece)
    requires Boards.WellFormed(b)
    requires !Pieces.Collides(p, b)
    ensures Pieces.InBounds(p, b)
    ensures forall row, col | 0 <= row < b.height && 0 <= col < b.width ::
      Stamp(b, p).state[row][col] != b.state[row][col] <==> Pieces.AtAbsolute(p, col, row) != 0
  {
    forall lx, ly | 0 <= lx < 4 && 0 <= ly < 4 && Pieces.At(p, lx, ly) != 0
      ensures Boards.InRange(b, p.x + lx, p.y + ly)
    {
      Pieces.FreeCellIsEmpty(p, b, lx, ly);
    }
    var r := Stamp(b, p);
    forall row, col | 0 <= row < b.height && 0 <= col < b.width
      ensures r.state[row][col] != b.state[row][col] <==> Pieces.AtAbsolute(p, col, row) != 0
    {
      var lx, ly := col - p.x, row - p.y;
      if Pieces.AtAbsolute(p, col, row) != 0 {
        Pieces.FreeCellIsEmpty(p, b, lx, ly);
      }
    }
  }

  /** Once stamped, the piece no longer fits where it was: its own cells are taken. */
  lemma StampedPieceCollides(b: Boards.Board, p: Pieces.Piece)
    requires Boards.WellFormed(b)
    ensures Pieces.Collides(p, Stamp(b, p))
  {
    var r := Stamp(b, p);
    var lx, ly := Pieces.SomeFilledCell(p);
    Pieces.AtAbsoluteIsLocalShifted(p, lx, ly);
    assert Pieces.Hits(p, r, lx, ly);
  }

  /** The local cell (col - p.x, row - p.y) has been written once the loop has reached (x, y), columns outermost. */
  function Written(b: Boards.Board, p: Pieces.Piece, x: int, y: int, col: int, row: int): int
    requires Boards.WellFormed(b)
    requires 0 <= row < b.height && 0 <= col < b.width
  {
    var lx, ly := col - p.x, row - p.y;
    if Pieces.InBox(lx, ly) && (lx < x || (lx == x && ly < y)) && Pieces.At(p, lx, ly) != 0
    then Pieces.At(p, lx, ly)
    else b.state[row][col]
  }

  /** The board `r` is `b` with the local cells before (x, y) written. */
  predicate WrittenUpTo(b: Boards.Board, p: Pieces.Piece, r: Boards.Board, x: int, y: int)
    requires Boards.WellFormed(b)
  {
    && Boards.WellFormed(r) && r.width == b.width && r.height == b.height
    && forall row, col | 0 <= row < b.height && 0 <= col < b.width ::
      r.state[row][col] == Written(b, p, x, y, col, row)
  }

  /**
   The write loop of Board::place: for each filled local cell, column by
   column, store the piece's colour at its board position. The source does not
   check the position, so the piece must lie on the board.
   */
  method WriteCells(b: Boards.Board, p: Pieces.Piece) returns (r: Boards.Board)
    requires Boards.WellFormed(b)
    requires Pieces.InBounds(p, b)
    ensures r == Stamp(b, p)
  {
    r := b;
    var x := 0;
    while x < 4
      invariant 0 <= x <= 4
      invariant WrittenUpTo(b, p, r, x, 0)
    {
      var y := 0;
      while y < 4
        invariant 0 <= y <= 4
        invariant WrittenUpTo(b, p, r, x, y)
      {
        var c := Pieces.At(p, x, y);
        if c != 0 {
          WriteStep(b, p, r, x, y);
          var row, col := p.y + y, p.x + x;
          r := r.(state := r.state[row := r.state[row][col := c]]);
        }
        y := y + 1;
      }
      NextColumn(b, p, r, x);
      x := x + 1;
    }
    WrittenAllIsStamp(b, p, r);
  }

  /** Writing the filled local cell (x, y) advances the write loop by one cell. */
  lemma WriteStep(b: Boards.Board, p: Pieces.Piece, r: Boards.Board, x: int, y: int)
    requires Boards.WellFormed(b) && Pieces.InBounds(p, b)
    requires 0 <= x < 4 && 0 <= y < 4 && Pieces.At(p, x, y) != 0
    requires WrittenUpTo(b, p, r, x, y)
    ensures Boards.InRange(b, p.x + x, p.y + y)
    ensures WrittenUpTo(b, p, r.(state := r.state[p.y + y := r.state[p.y + y][p.x + x := Pieces.At(p, x, y)]]), x, y + 1)
  {
  }

  /** A column of the box finished is the next column begun. */
  lemma NextColumn(b: Boards.Board, p: Pieces.Piece, r: Boards.Board, x: int)
    requires Boards.WellFormed(b)
    requires WrittenUpTo(b, p, r, x, 4)
    ensures WrittenUpTo(b, p, r, x + 1, 0)
  {
  }

  /** Once the loop has passed every local cell, the board is the stamped board. */
  lemma WrittenAllIsStamp(b: Boards.Board, p: Pieces.Piece, r: Boards.Board)
    requires Boards.WellFormed(b)
    requires WrittenUpTo(b, p, r, 4, 0)
    ensures r == Stamp(b, p)
  {
    var s := Stamp(b, p);
    forall row | 0 <= row < b.height
      ensures r.state[row] == s.state[row]
    {
      forall col | 0 <= col < b.width
        ensures r.state[row][col] == s.state[row][col]
      {
        Pieces.AtAbsoluteIsLocalShifted(p, col - p.x, row - p.y);
      }
    }
  }

  // ----- locking -----

  /**
   Board::place: write the falling piece into the board, promote the next
   piece centred at the top, take `draw` from the catalog as the new next
   piece, and lose if the promoted piece collides.
   */
  function BoardPlace(g: Game, draw: PieceIndex): (r: Game)
    requires Boards.WellFormed(g.board)
    requires Pieces.InBounds(g.player.current, g.board)
    ensures r.board == Stamp(g.board, g.player.current)
    ensures r.player == g.player.(current := Pieces.Center(g.player.next, g.board.width), next := Pieces.Spawn(draw))
    ensures r.running == (g.running && !Pieces.Collides(r.player.current, r.board))
  {
    var b := Stamp(g.board, g.player.current);
    var promoted := Pieces.Center(g.player.next, b.width);
    var g' := Game(b, g.player.(current := promoted, next := Pieces.Spawn(draw)), g.running);
    if Pieces.Collides(promoted, b) then Lose(g') else g'
  }

  /**
   Player::place: Board::place, then clear_lines. The loss decision is taken
   against the board before its full rows are cleared.
   */
  function Lock(g: Game, draw: PieceIndex): (r: Game)
    requires Boards.WellFormed(g.board)
    requires Pieces.InBounds(g.player.current, g.board)
    ensures var stamped := Stamp(g.board, g.player.current);
      && r.board == Boards.ClearedBoard(stamped)
      && r.player.current == Pieces.Center(g.player.next, g.board.width)
      && r.player.next == Pieces.Spawn(draw)
      && r.running == (g.running && !Pieces.Collides(r.player.current, stamped))
    ensures r.player.fallTime == g.player.fallTime && r.player.fallTimer == g.player.fallTimer
  {
    var placed := BoardPlace(g, draw);
    placed.(board := Boards.ClearedBoard(placed.board))
  }

  /** A lock writes only cells on the board: the source's precondition for the write loop. */
  predicate LockSafe(g: Game)
    requires Boards.WellFormed(g.board)
  {
    Players.CollidesToward(g.player, g.board, Down) ==> Pieces.InBounds(g.player.current, g.board)
  }

  /** One gravity step: down one row, or lock when the row below is blocked. */
  function Fall(g: Game, draw: PieceIndex): (r: Game)
    requires Boards.WellFormed(g.board)
    requires LockSafe(g)
    ensures Players.CollidesToward(g.player, g.board, Down) ==> r == Lock(g, draw)
    ensures !Players.CollidesToward(g.player, g.board, Down) ==>
      && r.board == g.board && r.running == g.running
      && r.player == g.player.(current := g.player.current.(y := g.player.current.y + 1))
      && !Pieces.Collides(r.player.current, r.board)
  {
    if Players.CollidesToward(g.player, g.board, Down) then Lock(g, draw)
    else g.(player := g.player.(current := Pieces.Shifted(g.player.current, Down)))
  }

  /** soft_drop: like a gravity step, but a successful descent also restarts the fall timer. */
  function SoftDrop(g: Game, draw: PieceIndex): (r: Game)
    requires Boards.WellFormed(g.board)
    requires LockSafe(g)
    ensures Players.CollidesToward(g.player, g.board, Down) ==> r == Lock(g, draw)
    ensures !Players.CollidesToward(g.player, g.board, Down) ==>
      && r.board == g.board && r.running == g.running
      && r.player == g.player.(current := g.player.current.(y := g.player.current.y + 1),
                               fallTimer := g.player.fallTime)
  {
    if Players.CollidesToward(g.player, g.board, Down) then Lock(g, draw)
    else
      var pl := g.player.(current := Pieces.Shifted(g.player.current, Down));
      g.(player := pl.(fallTimer := pl.fallTime))
  }

  /** A soft drop is a gravity step, except that a descent restarts the timer. */
  lemma SoftDropIsFallWithTimerReset(g: Game, draw: PieceIndex)
    requires Boards.WellFormed(g.board)
    requires LockSafe(g)
    ensures Players.CollidesToward(g.player, g.board, Down) ==> SoftDrop(g, draw) == Fall(g, draw)
    ensures !Players.CollidesToward(g.player, g.board, Down) ==>
      SoftDrop(g, draw) == Fall(g, draw).(player := Fall(g, draw).player.(fallTimer := g.player.fallTime))
  {
  }

  /**
   update: take `elapsedMs` off the fall timer; once it is used up, restart
   it and take exactly one gravity step.
   */
  function Update(g: Game, elapsedMs: int, draw: PieceIndex): (r: Game)
    requires Boards.WellFormed(g.board)
    requires g.player.fallTimer - elapsedMs <= 0 ==> LockSafe(g)
    ensures g.player.fallTimer - elapsedMs > 0 ==>
      r == g.(player := g.player.(fallTimer := g.player.fallTimer - elapsedMs))
    ensures g.player.fallTimer - elapsedMs <= 0 ==>
      && r == Fall(g.(player := g.player.(fallTimer := g.player.fallTime)), draw)
      && r.player.fallTimer == g.player.fallTime
  {
    var timer := g.player.fallTimer - elapsedMs;
    if timer <= 0 then
      Fall(g.(player := g.player.(fallTimer := g.player.fallTime)), draw)
    else
      g.(player := g.player.(fallTimer := timer))
  }

  /** Elapsed time accumulates: two updates of which the first does not fire act as one update over the sum. */
  lemma UpdateAccumulates(g: Game, a: int, b: int, draw: PieceIndex)
    requires Boards.WellFormed(g.board)
    requires LockSafe(g)
    requires g.player.fallTimer - a > 0
    ensures Update(Update(g, a, draw), b, draw) == Update(g, a + b, draw)
  {
  }

  // ----- commands and invariants -----

  /** The inputs the main loop feeds the controller: the four keys, soft drop, and a clock tick. */
  datatype Command = KeyLeft | KeyRight | KeyRotateLeft | KeyRotateRight | KeyDown | Tick(elapsedMs: int)

  /** The command does not reach an out-of-range write. */
  predicate StepSafe(g: Game, cmd: Command)
    requires Boards.WellFormed(g.board)
  {
    match cmd
    case KeyDown => LockSafe(g)
    case Tick(e) => g.player.fallTimer - e <= 0 ==> LockSafe(g)
    case _ => true
  }

  function Step(g: Game, cmd: Command, draw: PieceIndex): Game
    requires Boards.WellFormed(g.board)
    requires StepSafe(g, cmd)
  {
    match cmd
    case KeyLeft => g.(player := Players.MoveLeft(g.player, g.board))
    case KeyRight => g.(player := Players.MoveRight(g.player, g.board))
    case KeyRotateLeft => g.(player := Players.RotateLeft(g.player, g.board))
    case KeyRotateRight => g.(player := Players.RotateRight(g.player, g.board))
    case KeyDown => SoftDrop(g, draw)
    case Tick(e) => Update(g, e, draw)
  }

  /** The command ends in a lock. */
  predicate WouldLock(g: Game, cmd: Command)
    requires Boards.WellFormed(g.board)
  {
    && (cmd == KeyDown || (cmd.Tick? && g.player.fallTimer - cmd.elapsedMs <= 0))
    && Players.CollidesToward(g.player, g.board, Down)
  }

  /**
   What every reachable running game satisfies: a well-formed board, a next
   piece draw from the catalog, and a falling piece on the board.
   */
  predicate Invariant(g: Game)
  {
    && Boards.WellFormed(g.board)
    && g.player.next == Pieces.Spawn(g.player.next.kind)
    && (g.running ==> Pieces.InBounds(g.player.current, g.board))
  }

  /** The invariant, and also: while running, the falling piece does not collide. */
  predicate Free(g: Game)
  {
    && Invariant(g)
    && (g.running ==> !Pieces.Collides(g.player.current, g.board))
  }

  /** A game started on an empty board at least 4 wide and 3 tall starts with a piece that fits. */
  lemma StartIsFree(width: int, height: int, first: PieceIndex, second: PieceIndex)
    requires 4 <= width && 3 <= height
    ensures Free(Start(Boards.NewBoard(width, height), first, second))
  {
  }

  /**
   On the empty standard board an O piece spawned at the centre falls freely
   through rows 0 to 17 and locks at row 17, with its bottom cells on row 19,
   the last row of the board.
   */
  lemma ODropsToFloor(y: int)
    requires 0 <= y <= 17
    ensures var p := Pieces.Piece(3, Boards.StandardWidth / 2 - 2, y, 0);
      && !Pieces.Collides(p, Boards.StandardBoard())
      && (Pieces.Collides(Pieces.Shifted(p, Down), Boards.StandardBoard()) <==> y == 17)
      && (y == 17 ==> Pieces.AtAbsolute(p, 4, 19) != 0 && Pieces.AtAbsolute(p, 5, 19) != 0)
  {
    var b := Boards.StandardBoard();
    var p := Pieces.Piece(3, 3, y, 0);
    forall lx, ly | Pieces.InBox(lx, ly)
      ensures !Pieces.Hits(p, b, lx, ly)
    {
    }
    var q := Pieces.Shifted(p, Down);
    if y < 17 {
      forall lx, ly | Pieces.InBox(lx, ly)
        ensures !Pieces.Hits(q, b, lx, ly)
      {
      }
    } else {
      assert Pieces.Hits(q, b, 1, 2);
    }
  }

  /**
   A lock keeps the board's size, draws a fresh next piece, and leaves the
   game running only with a promoted piece that lies on the board.
   */
  lemma LockKeepsShape(g: Game, draw: PieceIndex)
    requires Boards.WellFormed(g.board)
    requires Pieces.InBounds(g.player.current, g.board)
    ensures var r := Lock(g, draw);
      && Boards.WellFormed(r.board)
      && r.board.width == g.board.width && r.board.height == g.board.height
      && r.player.next == Pieces.Spawn(draw)
      && (r.running ==> Pieces.InBounds(r.player.current, r.board))
  {
    var r := Lock(g, draw);
    if r.running {
      Pieces.FreeIffInBoundsOnEmpty(r.player.current, Stamp(g.board, g.player.current));
    }
  }

  /** A command that ends in a lock is a lock of the game with, for a tick, its timer restarted. */
  lemma LockingStepIsLock(g: Game, cmd: Command, draw: PieceIndex)
    requires Boards.WellFormed(g.board)
    requires StepSafe(g, cmd)
    requires WouldLock(g, cmd)
    ensures Pieces.InBounds(g.player.current, g.board)
    ensures Step(g, cmd, draw) == Lock(if cmd.Tick? then g.(player := g.player.(fallTimer := g.player.fallTime)) else g, draw)
  {
  }

  /**
   A command that does not lock leaves the board, the next piece and the
   running flag alone, and moves the falling piece only to a place where it fits.
   */
  lemma NonLockingStepMovesOnlyToFreeCells(g: Game, cmd: Command, draw: PieceIndex)
    requires Boards.WellFormed(g.board)
    requires StepSafe(g, cmd)
    requires !WouldLock(g, cmd)
    ensures var r := Step(g, cmd, draw);
      && r.board == g.board && r.running == g.running && r.player.next == g.player.next
      && (r.player.current == g.player.current || !Pieces.Collides(r.player.current, g.board))
  {
  }

  /** Whatever the commands do while the game runs, the board keeps its size and a lock never writes off the board. */
  lemma StepKeepsInvariant(g: Game, cmd: Command, draw: PieceIndex)
    requires Invariant(g) && g.running
    ensures StepSafe(g, cmd)
    ensures Invariant(Step(g, cmd, draw))
    ensures Step(g, cmd, draw).board.width == g.board.width
    ensures Step(g, cmd, draw).board.height == g.board.height
  {
    var r := Step(g, cmd, draw);
    if WouldLock(g, cmd) {
      LockingStepIsLock(g, cmd, draw);
      LockKeepsShape(if cmd.Tick? then g.(player := g.player.(fallTimer := g.player.fallTime)) else g, draw);
    } else {
      NonLockingStepMovesOnlyToFreeCells(g, cmd, draw);
      if r.player.current != g.player.current {
        Pieces.FreeIffInBoundsOnEmpty(r.player.current, g.board);
      }
    }
  }

  /** Nothing but the start of the main loop sets the running flag: once lost, a game stays lost. */
  lemma LostGameStaysLost(g: Game, cmd: Command, draw: PieceIndex)
    requires Boards.WellFormed(g.board)
    requires StepSafe(g, cmd)
    requires !g.running
    ensures !Step(g, cmd, draw).running
    ensures !StepClearingFirst(g, cmd, draw).running
  {
  }

  /** On a board at least 4 wide and 3 tall, a piece promoted to the top centre lies on the board. */
  lemma PromotedPieceOnBoard(b: Boards.Board, kind: PieceIndex)
    requires 4 <= b.width && 3 <= b.height
    ensures Pieces.InBounds(Pieces.Center(Pieces.Spawn(kind), b.width), b)
  {
    var p := Pieces.Center(Pieces.Spawn(kind), b.width);
    forall lx, ly | 0 <= lx < 4 && 0 <= ly < 4 && Pieces.At(p, lx, ly) != 0
      ensures Boards.InRange(b, p.x + lx, p.y + ly)
    {
      SpawnMaskRows(kind, lx, ly);
    }
  }

  /** The invariant on a board at least 4 wide and 3 tall, with the falling piece on the board whether or not the game runs. */
  predicate RoomyInvariant(g: Game)
  {
    && Invariant(g)
    && 4 <= g.board.width && 3 <= g.board.height
    && Pieces.InBounds(g.player.current, g.board)
  }

  /**
   On such a board every command, before or after a loss, keeps the falling
   piece on the board, so no lock ever writes off the board.
   */
  lemma StepKeepsPieceOnRoomyBoard(g: Game, cmd: Command, draw: PieceIndex)
    requires RoomyInvariant(g)
    ensures StepSafe(g, cmd)
    ensures RoomyInvariant(Step(g, cmd, draw))
  {
    var r := Step(g, cmd, draw);
    if WouldLock(g, cmd) {
      LockingStepIsLock(g, cmd, draw);
      LockKeepsPieceOnRoomyBoard(if cmd.Tick? then g.(player := g.player.(fallTimer := g.player.fallTime)) else g, draw);
    } else {
      NonLockingStepMovesOnlyToFreeCells(g, cmd, draw);
      if r.player.current != g.player.current {
        Pieces.FreeIffInBoundsOnEmpty(r.player.current, g.board);
      }
    }
  }

  /** On such a board a lock, whether or not it ends the game, leaves the promoted piece on the board. */
  lemma LockKeepsPieceOnRoomyBoard(g: Game, draw: PieceIndex)
    requires RoomyInvariant(g)
    ensures RoomyInvariant(Lock(g, draw))
  {
    var r := Lock(g, draw);
    LockKeepsShape(g, draw);
    PromotedPieceOnBoard(r.board, g.player.next.kind);
  }

  /** Commands that do not lock keep the falling piece clear of the board's contents. */
  lemma NonLockingStepKeepsFree(g: Game, cmd: Command, draw: PieceIndex)
    requires Free(g) && g.running
    requires !WouldLock(g, cmd)
    ensures StepSafe(g, cmd)
    ensures Free(Step(g, cmd, draw))
  {
    StepKeepsInvariant(g, cmd, draw);
  }

  // ----- the loss check runs before the rows are cleared -----

  /**
   A board 4 wide and 5 tall with one cell taken in row 1 and the bottom row
   half full, an O piece about to complete the bottom row, and an I piece next.
   */
  function OverlapExample(): Game
  {
    var rows := [[0, 0, 0, 0], [ColorRed, 0, 0, 0], [0, 0, 0, 0], [0, 0, 0, 0], [ColorRed, ColorRed, 0, 0]];
    var o := Pieces.Piece(3, 1, 2, 0);
    Game(Boards.Board(4, 5, rows), Players.Player(o, Pieces.Spawn(0), Players.InitialFallTime, Players.InitialFallTime), true)
  }

  /**
   In the source's order the promoted piece is checked against the board
   before the full bottom row is cleared; the clear then drops the taken cell
   of row 1 into row 2, under the promoted I piece, and the game goes on with
   a falling piece that overlaps a locked cell.
   */
  lemma LockLeavesOverlapWhileRunning()
    ensures Free(OverlapExample())
    ensures var r := Step(OverlapExample(), KeyDown, 0);
      r.running && Pieces.Collides(r.player.current, r.board)
  {
    var g := OverlapExample();
    OverlapExampleFree();
    OverlapExampleLocks();
    var stamped := Stamp(g.board, g.player.current);
    var promoted := Pieces.Center(Pieces.Spawn(0), 4);
    OverlapExampleStamped();
    PromotedFitsBeforeClearing(stamped);
    OverlapExampleCleared();
    PromotedCollidesAfterClearing(Boards.ClearedBoard(stamped));
    var r := Step(g, KeyDown, 0);
    assert r == Lock(g, 0);
  }

  /** The example is a running game whose falling O piece fits. */
  lemma OverlapExampleFree()
    ensures Free(OverlapExample())
  {
    var g := OverlapExample();
    var o := g.player.current;
    forall lx, ly | Pieces.InBox(lx, ly)
      ensures !Pieces.Hits(o, g.board, lx, ly)
    {
    }
  }

  /** The O piece rests on the bottom row: a soft drop locks it. */
  lemma OverlapExampleLocks()
    ensures WouldLock(OverlapExample(), KeyDown)
  {
    var g := OverlapExample();
    assert Pieces.Hits(Pieces.Shifted(g.player.current, Down), g.board, 1, 2);
  }

  /** Before clearing, row 2 is empty, so the promoted I piece fits. */
  lemma PromotedFitsBeforeClearing(b: Boards.Board)
    requires b == Boards.Board(4, 5, [[0, 0, 0, 0], [ColorRed, 0, 0, 0], [0, 0, 0, 0], [0, 0, ColorYellow, ColorYellow],
                                   [ColorRed, ColorRed, ColorYellow, ColorYellow]])
    ensures Boards.WellFormed(b)
    ensures !Pieces.Collides(Pieces.Center(Pieces.Spawn(0), 4), b)
  {
    var promoted := Pieces.Center(Pieces.Spawn(0), 4);
    forall lx, ly | Pieces.InBox(lx, ly)
      ensures !Pieces.Hits(promoted, b, lx, ly)
    {
    }
  }

  /** After clearing, the taken cell of row 1 sits in row 2, under the promoted I piece. */
  lemma PromotedCollidesAfterClearing(b: Boards.Board)
    requires b == Boards.Board(4, 5, [[0, 0, 0, 0], [0, 0, 0, 0], [ColorRed, 0, 0, 0], [0, 0, 0, 0],
                                   [0, 0, ColorYellow, ColorYellow]])
    ensures Boards.WellFormed(b)
    ensures Pieces.Collides(Pieces.Center(Pieces.Spawn(0), 4), b)
  {
    assert Pieces.Hits(Pieces.Center(Pieces.Spawn(0), 4), b, 0, 2);
  }

  /** An unrotated O piece fills exactly the middle 2x2 square of its box. */
  lemma OCells(p: Pieces.Piece, lx: int, ly: int)
    requires p.kind == 3 && p.rotation == 0
    ensures Pieces.At(p, lx, ly) != 0 <==> 1 <= lx <= 2 && 1 <= ly <= 2
  {
  }

  /** Writing the O piece completes the bottom row. */
  lemma OverlapExampleStamped()
    ensures Stamp(OverlapExample().board, OverlapExample().player.current).state ==
      [[0, 0, 0, 0], [ColorRed, 0, 0, 0], [0, 0, 0, 0], [0, 0, ColorYellow, ColorYellow],
       [ColorRed, ColorRed, ColorYellow, ColorYellow]]
  {
    var g := OverlapExample();
    var o := g.player.current;
    var s := Stamp(g.board, o);
    var want := [[0, 0, 0, 0], [ColorRed, 0, 0, 0], [0, 0, 0, 0], [0, 0, ColorYellow, ColorYellow],
                 [ColorRed, ColorRed, ColorYellow, ColorYellow]];
    forall row, col | 0 <= row < 5 && 0 <= col < 4
      ensures s.state[row][col] == want[row][col]
    {
      OCells(o, col - o.x, row - o.y);
    }
    Boards.RowsEqualByCells(s.state, want);
  }

  /** Clearing the bottom row drops every row above it by one. */
  lemma OverlapExampleCleared()
    ensures Boards.Cleared(
      [[0, 0, 0, 0], [ColorRed, 0, 0, 0], [0, 0, 0, 0], [0, 0, ColorYellow, ColorYellow],
       [ColorRed, ColorRed, ColorYellow, ColorYellow]], 4) ==
      [[0, 0, 0, 0], [0, 0, 0, 0], [ColorRed, 0, 0, 0], [0, 0, 0, 0], [0, 0, ColorYellow, ColorYellow]]
  {
    var rows := [[0, 0, 0, 0], [ColorRed, 0, 0, 0], [0, 0, 0, 0], [0, 0, ColorYellow, ColorYellow],
                 [ColorRed, ColorRed, ColorYellow, ColorYellow]];
    assert !Boards.FullRow(rows[0]) by { assert rows[0][0] == 0; }
    assert !Boards.FullRow(rows[1]) by { assert rows[1][1] == 0; }
    assert !Boards.FullRow(rows[2]) by { assert rows[2][0] == 0; }
    assert !Boards.FullRow(rows[3]) by { assert rows[3][0] == 0; }
    Boards.ClearedOneFullRow(rows[..4], rows[4], [], 4);
    assert rows[..4] + [rows[4]] + [] == rows;
    assert Boards.BlankRow(4) == [0, 0, 0, 0];
  }

  /**
   A board 4 wide and 5 tall whose row 2 lacks its two right cells, an O piece
   resting above the bottom row ready to fill them, and an I piece next.
   */
  function EarlyLossExample(): Game
  {
    var rows := [[0, 0, 0, 0], [0, 0, 0, 0], [ColorRed, ColorRed, 0, 0], [0, 0, 0, 0], [0, 0, ColorRed, ColorRed]];
    var o := Pieces.Piece(3, 1, 1, 0);
    Game(Boards.Board(4, 5, rows), Players.Player(o, Pieces.Spawn(0), Players.InitialFallTime, Players.InitialFallTime), true)
  }

  /**
   The converse: the O piece completes row 2, the promoted I piece is checked
   against that full row and the game is lost, although once the row is
   cleared the I piece would fit.
   */
  lemma LockEndsGameBeforeClearing()
    ensures Free(EarlyLossExample())
    ensures !Step(EarlyLossExample(), KeyDown, 0).running
    ensures StepClearingFirst(EarlyLossExample(), KeyDown, 0).running
  {
    var g := EarlyLossExample();
    EarlyLossFree();
    EarlyLossLocks();
    var stamped := Stamp(g.board, g.player.current);
    EarlyLossStamped();
    PromotedCollidesBeforeClearing(stamped);
    EarlyLossCleared();
    PromotedFitsAfterEarlyLoss(Boards.ClearedBoard(stamped));
    assert Step(g, KeyDown, 0) == Lock(g, 0);
  }

  /** The example is a running game whose falling O piece fits. */
  lemma EarlyLossFree()
    ensures Free(EarlyLossExample())
  {
    var g := EarlyLossExample();
    var o := g.player.current;
    forall lx, ly | Pieces.InBox(lx, ly)
      ensures !Pieces.Hits(o, g.board, lx, ly)
    {
    }
  }

  /** The O piece rests on the bottom row: a soft drop locks it. */
  lemma EarlyLossLocks()
    ensures WouldLock(EarlyLossExample(), KeyDown)
  {
    var g := EarlyLossExample();
    assert Pieces.Hits(Pieces.Shifted(g.player.current, Down), g.board, 1, 2);
  }

  /** Before clearing, the completed row 2 lies under the promoted I piece. */
  lemma PromotedCollidesBeforeClearing(b: Boards.Board)
    requires b == Boards.Board(4, 5, [[0, 0, 0, 0], [0, 0, 0, 0], [ColorRed, ColorRed, ColorYellow, ColorYellow],
                                   [0, 0, ColorYellow, ColorYellow], [0, 0, ColorRed, ColorRed]])
    ensures Boards.WellFormed(b)
    ensures Pieces.Collides(Pieces.Center(Pieces.Spawn(0), 4), b)
  {
    assert Pieces.Hits(Pieces.Center(Pieces.Spawn(0), 4), b, 0, 2);
  }

  /** Writing the O piece completes row 2. */
  lemma EarlyLossStamped()
    ensures Stamp(EarlyLossExample().board, EarlyLossExample().player.current).state ==
      [[0, 0, 0, 0], [0, 0, 0, 0], [ColorRed, ColorRed, ColorYellow, ColorYellow], [0, 0, ColorYellow, ColorYellow],
       [0, 0, ColorRed, ColorRed]]
  {
    var g := EarlyLossExample();
    var o := g.player.current;
    var s := Stamp(g.board, o);
    var want := [[0, 0, 0, 0], [0, 0, 0, 0], [ColorRed, ColorRed, ColorYellow, ColorYellow], [0, 0, ColorYellow, ColorYellow],
                 [0, 0, ColorRed, ColorRed]];
    forall row, col | 0 <= row < 5 && 0 <= col < 4
      ensures s.state[row][col] == want[row][col]
    {
      OCells(o, col - o.x, row - o.y);
    }
    Boards.RowsEqualByCells(s.state, want);
  }

  /** Clearing row 2 drops rows 0 and 1 by one. */
  lemma EarlyLossCleared()
    ensures Boards.Cleared(
      [[0, 0, 0, 0], [0, 0, 0, 0], [ColorRed, ColorRed, ColorYellow, ColorYellow], [0, 0, ColorYellow, ColorYellow],
       [0, 0, ColorRed, ColorRed]], 4) ==
      [[0, 0, 0, 0], [0, 0, 0, 0], [0, 0, 0, 0], [0, 0, ColorYellow, ColorYellow], [0, 0, ColorRed, ColorRed]]
  {
    var rows := [[0, 0, 0, 0], [0, 0, 0, 0], [ColorRed, ColorRed, ColorYellow, ColorYellow], [0, 0, ColorYellow, ColorYellow],
                 [0, 0, ColorRed, ColorRed]];
    assert !Boards.FullRow(rows[0]) by { assert rows[0][0] == 0; }
    assert !Boards.FullRow(rows[1]) by { assert rows[1][0] == 0; }
    assert !Boards.FullRow(rows[3]) by { assert rows[3][0] == 0; }
    assert !Boards.FullRow(rows[4]) by { assert rows[4][0] == 0; }
    Boards.ClearedOneFullRow([rows[0], rows[1]], rows[2], [rows[3], rows[4]], 4);
    assert [rows[0], rows[1]] + [rows[2]] + [rows[3], rows[4]] == rows;
    assert Boards.BlankRow(4) == [0, 0, 0, 0];
  }

  /** Once row 2 is cleared, the promoted I piece fits. */
  lemma PromotedFitsAfterEarlyLoss(b: Boards.Board)
    requires b == Boards.Board(4, 5, [[0, 0, 0, 0], [0, 0, 0, 0], [0, 0, 0, 0], [0, 0, ColorYellow, ColorYellow],
                                   [0, 0, ColorRed, ColorRed]])
    ensures Boards.WellFormed(b)
    ensures !Pieces.Collides(Pieces.Center(Pieces.Spawn(0), 4), b)
  {
    var promoted := Pieces.Center(Pieces.Spawn(0), 4);
    forall lx, ly | Pieces.InBox(lx, ly)
      ensures !Pieces.Hits(promoted, b, lx, ly)
    {
    }
  }

  /**
   Player::place in the order a loss check needs: write the piece, clear the
   full rows, then promote the next piece and check it against the board it
   will fall on.
   */
  function LockClearingFirst(g: Game, draw: PieceIndex): (r: Game)
    requires Boards.WellFormed(g.board)
    requires Pieces.InBounds(g.player.current, g.board)
    ensures r.board == Lock(g, draw).board && r.player == Lock(g, draw).player
    ensures r.running == (g.running && !Pieces.Collides(r.player.current, r.board))
  {
    var b := Boards.ClearedBoard(Stamp(g.board, g.player.current));
    var promoted := Pieces.Center(g.player.next, b.width);
    var g' := Game(b, g.player.(current := promoted, next := Pieces.Spawn(draw)), g.running);
    if Pieces.Collides(promoted, b) then Lose(g') else g'
  }

  /** A step of the game with locks done by LockClearingFirst. */
  function StepClearingFirst(g: Game, cmd: Command, draw: PieceIndex): Game
    requires Boards.WellFormed(g.board)
    requires StepSafe(g, cmd)
  {
    if WouldLock(g, cmd) then
      var g' := if cmd.Tick? then g.(player := g.player.(fallTimer := g.player.fallTime)) else g;
      LockClearingFirst(g', draw)
    else Step(g, cmd, draw)
  }

  /** The corrected order differs from the source's only in whether the game goes on. */
  lemma ClearingFirstDiffersOnlyInLossDecision(g: Game, cmd: Command, draw: PieceIndex)
    requires Boards.WellFormed(g.board)
    requires StepSafe(g, cmd)
    ensures StepClearingFirst(g, cmd, draw).board == Step(g, cmd, draw).board
    ensures StepClearingFirst(g, cmd, draw).player == Step(g, cmd, draw).player
    ensures !WouldLock(g, cmd) ==> StepClearingFirst(g, cmd, draw) == Step(g, cmd, draw)
  {
  }

  /** With the rows cleared before the loss check, a running game never has a colliding falling piece. */
  lemma StepClearingFirstKeepsFree(g: Game, cmd: Command, draw: PieceIndex)
    requires Free(g) && g.running
    ensures StepSafe(g, cmd)
    ensures Free(StepClearingFirst(g, cmd, draw))
  {
    StepKeepsInvariant(g, cmd, draw);
    var r := StepClearingFirst(g, cmd, draw);
    if WouldLock(g, cmd) {
      if r.running {
        Pieces.FreeIffInBoundsOnEmpty(r.player.current, r.board);
      }
    }
  }
}
