# cursedtris game engine, modelled in Dafny

This project models the game-state engine of cursedtris, a terminal
falling-block game written in C++. The model covers:

- the static catalog of the seven tetrominoes, each with four 4x4 rotation masks and a colour tag;
- the direction table;
- `Piece`: a catalog entry at a position, in a rotation state;
- collision of a piece with the board;
- the `Board`: a height x width matrix of colour tags where 0 is empty, with bounds-checked reads, locking a piece into the grid, and the forward-scan line clear;
- the `Player` controller: try-then-commit moves and rotations, soft drop, timer-driven gravity, and the overlay of the falling piece;
- the lock sequence and the loss signal of `Tetris::lose`.

The model is functional. Pieces, boards, players and whole games are
immutable values, and every command is a function from the old game to the
new one. Three loops of the source are also written as methods that follow
the C++ loop structure, and each is proved to compute its reference
definition:

- `Pieces.IsColliding` (the 4x4 scan of `Piece::is_colliding`);
- `Tetris.WriteCells` (the write loop of `Board::place`);
- `Boards.ClearLines` (the erase-and-insert scan of `Board::clear_lines`).

Modules follow the components: `Catalog` (static tables), `Boards` (the
board), `Pieces`, `Players` (sideways moves and rotations) and `Tetris`
(the game as a whole). The game state is one value
`Game(board, player, running)`. In the source the board owns the player
and points back to the game object, so locking a piece touches all three.

Inputs the engine takes from outside are parameters:

- the random catalog draw is `draw: PieceIndex`, a number in 0..6;
- the wall-clock delta is `elapsedMs`;
- the two timer fields are whole milliseconds.

## Model

| member | source | states |
|---|---|---|
| `Catalog.DirVector` | include/tetris.hpp:32-37 | each direction is one unit step along one axis; Left and Right are the horizontal ones, Right and Down the positive ones, which fixes Left=(-1,0), Right=(1,0), Up=(0,-1), Down=(0,1) |
| `Catalog.CatalogIsTetrominoes` | include/tetris.hpp:44-248 | the catalog has 7 entries, every colour tag is nonzero, and every one of the 28 rotation masks has exactly four filled cells |
| `Pieces.SomeFilledCell` | include/tetris.hpp:44-248 | every piece, in every rotation, has a filled cell in its box |
| `Catalog.SpawnMaskRows` | include/tetris.hpp:44-248 | unrotated, every catalog piece fills only rows 1 and 2 of its box |
| `Boards.NewBoard` | include/tetris.hpp:327 | a new board has `height` rows of `width` cells, all 0 |
| `Boards.StandardBoard` | include/tetris.hpp:326 | the default board is 10 wide and 20 tall, with every cell 0 |
| `Boards.At` | include/tetris.hpp:335-340 | a read returns the stored tag inside `0 <= x < width`, `0 <= y < height`, and 0 everywhere else, so a nonzero read is always on the board |
| `Boards.InRange` | include/tetris.hpp:338-340 | on a well-formed board, a cell is in range exactly when it is a valid index into the stored rows, which is what the guarded read in `at` relies on |
| `Boards.ClearLines` | src/tetris.cpp:148-164 | the forward scan that erases each full row and inserts a blank row on top keeps the board's size, and leaves exactly k blank rows followed by the rows that were not full, in their original order, where k is the number of full rows |
| `Boards.ClearedBoard` | src/tetris.cpp:148-164 | clearing keeps the board well formed and its width and height unchanged |
| `Boards.ClearedShape` | src/tetris.cpp:148-164 | clearing keeps the row count and every row's width |
| `Boards.ClearedWithoutFullRows` | src/tetris.cpp:148-164 | with no full row, clearing is the identity |
| `Boards.ClearedAllFull` | src/tetris.cpp:148-164 | with every row full, clearing yields an all-blank board of the same size |
| `Boards.ClearedHasNoFullRow` | src/tetris.cpp:148-164 | on a board at least one column wide, no row is full after clearing |
| `Boards.ClearedIdempotent` | src/tetris.cpp:148-164 | clearing twice is the same as clearing once |
| `Boards.ClearedOneFullRow` | src/tetris.cpp:148-164 | with exactly one full row, clearing removes that row and inserts one blank row on top; the rows above and below it keep their order |
| `Boards.RowIsFull` | src/tetris.cpp:151-157 | the inner left-to-right scan, which stops at the first empty cell, reports a row full exactly when none of its cells is 0 |
| `Pieces.Spawn` | include/tetris.hpp:256 | a piece drawn from the catalog starts at x = 0, y = 0, rotation 0 |
| `Pieces.At` | include/tetris.hpp:258-264 | the mask lookup is 0 outside the 4x4 box; inside the box it is nonzero exactly when the mask bit of the current rotation is set, and then it is the type's colour |
| `Pieces.RotateLeft` | src/tetris.cpp:19-21 | a left turn changes only the rotation |
| `Pieces.RotateRight` | src/tetris.cpp:23-25 | a right turn changes only the rotation |
| `Pieces.RotationsAreInverse` | src/tetris.cpp:19-25 | a left turn and a right turn undo each other |
| `Pieces.RotationHasOrderFour` | src/tetris.cpp:19-25 | four turns in one direction restore the piece, and one or two turns never do |
| `Pieces.Center` | src/tetris.cpp:27-29 | centring sets only the column, so that the margins left and right of the 4-wide box differ by at most one |
| `Pieces.Shifted` | src/tetris.cpp:103-110 | the trial piece for a direction is the piece moved by that direction's vector, with kind and rotation kept |
| `Pieces.IsColliding` | src/tetris.cpp:6-17 | the nested scan returns true exactly when some filled cell of the piece lands off the board or on an occupied cell |
| `Pieces.FreeIffInBoundsOnEmpty` | src/tetris.cpp:6-17 | a piece does not collide if and only if every filled cell is on the board and on an empty cell |
| `Pieces.FreeCellIsEmpty` | src/tetris.cpp:6-17 | each filled cell of a piece that does not collide lies on the board, on an empty cell |
| `Pieces.CollidesOnlyThroughCoveredCells` | src/tetris.cpp:6-17 | collision depends on the board only through the cells the piece covers |
| `Players.NewPlayer` | src/tetris.cpp:31-36 | a new controller has the first draw unrotated at the top centre, the second draw as a fresh next piece, and the timer at the 200 ms interval |
| `Players.At` | src/tetris.cpp:38-43 | the overlay is nonzero exactly on the board cells under filled mask cells of the falling piece, and shows the piece's colour there |
| `Players.CollidesToward` | src/tetris.cpp:103-110 | the trial copy moved by the direction's `dir_map` vector collides: x - 1 for Left, x + 1 for Right, y - 1 for Up, y + 1 for Down |
| `Players.TryCommit` | src/tetris.cpp:72-88 | the trial piece is kept exactly when it does not collide; a non-colliding falling piece stays non-colliding |
| `Players.MoveLeft` | src/tetris.cpp:60-64 | the controller is unchanged exactly when the piece one column to the left collides; otherwise only x decreases, by one; a non-colliding piece stays non-colliding |
| `Players.MoveRight` | src/tetris.cpp:66-70 | the controller is unchanged exactly when the piece one column to the right collides; otherwise only x increases, by one; a non-colliding piece stays non-colliding |
| `Players.RotateLeft` | src/tetris.cpp:72-79 | the controller is unchanged exactly when the left-turned piece collides; otherwise only the rotation steps back by one modulo 4; a non-colliding piece stays non-colliding |
| `Players.RotateRight` | src/tetris.cpp:81-88 | the controller is unchanged exactly when the right-turned piece collides; otherwise only the rotation steps on by one modulo 4; a non-colliding piece stays non-colliding |
| `Players.MoveLeftThenRightRestores` | src/tetris.cpp:60-70 | an accepted move left is undone by a move right |
| `Players.RotateLeftThenRightRestores` | src/tetris.cpp:72-88 | an accepted left turn is undone by a right turn |
| `Tetris.Start` | src/tetris.cpp:265-269 | the main loop starts with `running` set, on the given board, with the first draw falling unrotated at the top centre (x = width/2 - 2), the second draw as the next piece, and both timers at 200 ms |
| `Tetris.Lose` | src/tetris.cpp:283-286 | losing clears `running` and leaves the board and the controller untouched |
| `Tetris.LostGameStaysLost` | src/tetris.cpp:265-286 | only the start of `run` sets `running`, so after a loss no command, in the source's order or with clearing first, makes the game run again |
| `Tetris.Stamp` | src/tetris.cpp:128-136 | locking writes the piece's colour into every board cell under a filled mask cell and leaves every other cell unchanged |
| `Tetris.WriteCells` | src/tetris.cpp:128-136 | the column-by-column write loop, given a piece that lies on the board, produces exactly `Stamp` |
| `Tetris.StampWritesExactlyThePiece` | src/tetris.cpp:128-136 | for a non-colliding piece every write index is on the board, and the changed cells are exactly the cells the piece covers |
| `Tetris.StampedPieceCollides` | src/tetris.cpp:128-136 | after locking, the same piece would collide where it stood |
| `Tetris.BoardPlace` | src/tetris.cpp:128-146 | the board gets the piece written in; the former next piece becomes current, with x = width/2 - 2 and its y and rotation kept; a fresh draw becomes next; running turns false exactly when the promoted piece collides with the written board |
| `Tetris.Lock` | src/tetris.cpp:123-126 | the board ends written and then cleared, and the loss decision is taken against the written board before clearing; the timers are untouched |
| `Tetris.Fall` | src/tetris.cpp:112-121 | when the cell below is blocked the piece locks; otherwise only y increases, by one, and the descended piece does not collide |
| `Tetris.SoftDrop` | src/tetris.cpp:49-58 | when the cell below is blocked the piece locks without touching the timer; otherwise only y increases by one and the timer restarts at the fall interval |
| `Tetris.SoftDropIsFallWithTimerReset` | src/tetris.cpp:49-58 | a soft drop is a gravity step, except that a successful descent restarts the timer |
| `Tetris.Update` | src/tetris.cpp:90-101 | the elapsed time comes off the timer; only when the timer reaches 0 or below does it restart at the interval and exactly one gravity step run |
| `Tetris.UpdateAccumulates` | src/tetris.cpp:90-101 | two updates, the first not firing, equal one update over the summed time |
| `Tetris.StartIsFree` | src/tetris.cpp:31-36 | on an empty board at least 4 wide and 3 tall the first piece fits |
| `Tetris.ODropsToFloor` | src/tetris.cpp:49-58 | on the empty 10x20 board a centred O piece falls freely through rows 0..17 and locks at row 17 with its bottom cells on row 19 |
| `Tetris.StepKeepsInvariant` | src/tetris.cpp:49-146 | every command on a running game keeps the board's size and the next piece fresh; while the game runs the falling piece stays on the board, so no lock writes off the board |
| `Tetris.PromotedPieceOnBoard` | src/tetris.cpp:138-141 | on a board at least 4 wide and 3 tall, the next piece centred on the top row lies entirely on the board |
| `Tetris.StepKeepsPieceOnRoomyBoard` | src/tetris.cpp:49-146 | on a board at least 4 wide and 3 tall, every command, whether the game is still running or has just been lost, keeps the falling piece on the board, so every lock is a safe write |
| `Tetris.LockKeepsPieceOnRoomyBoard` | src/tetris.cpp:123-146 | on such a board a lock leaves the promoted piece on the board whether or not it ends the game |
| `Tetris.LockKeepsShape` | src/tetris.cpp:123-146 | a lock keeps the board well formed and its size, makes a fresh catalog draw the next piece, and leaves the game running only with a promoted piece that lies on the board |
| `Tetris.LockingStepIsLock` | src/tetris.cpp:49-121 | a soft drop or a firing tick with the cell below blocked is exactly `Player::place`, after the tick has restarted the timer |
| `Tetris.NonLockingStepMovesOnlyToFreeCells` | src/tetris.cpp:49-121 | a command that does not lock leaves the board, the next piece and the running flag unchanged, and either keeps the falling piece or moves it to a place where it fits |
| `Tetris.NonLockingStepKeepsFree` | src/tetris.cpp:60-121 | commands that do not lock keep a non-colliding falling piece non-colliding |
| `Tetris.LockLeavesOverlapWhileRunning` | src/tetris.cpp:123-146 | as written, a soft drop can leave the game running with a falling piece that overlaps a locked cell |
| `Tetris.LockEndsGameBeforeClearing` | src/tetris.cpp:123-146 | as written, a lock can end the game although the promoted piece fits once the full row is cleared |
| `Tetris.LockClearingFirst` | src/tetris.cpp:123-146 | the corrected lock gives the same board and controller as the source's, and loses exactly when the promoted piece collides with the cleared board |
| `Tetris.ClearingFirstDiffersOnlyInLossDecision` | src/tetris.cpp:123-146 | the corrected step and the source's step agree on board and controller, and agree entirely when nothing locks |
| `Tetris.StepClearingFirstKeepsFree` | src/tetris.cpp:123-146 | with the corrected lock, a running game never has a colliding falling piece |

## Left out

- Terminal I/O is not modelled. This covers window creation and centring (`src/window.cpp`, `include/window.hpp`), curses start-up (`src/main.cpp`), the `Tetris` constructor's colour-pair setup, `display`, and the blocking key loop of `run` and `handle_input`. `Tetris.Command` lists the inputs that `handle_input` forwards, but the key codes and the loop are not modelled. `Tetris::update` only forwards to `Player::update`, which `Tetris.Update` models.
- The random engine is not modelled. Each draw is the parameter `draw`, an index in 0..6.
- Reading the clock is not modelled. The elapsed time is the parameter `elapsedMs`.
- The timers are doubles in the source. Every value they hold is a whole number of milliseconds, so they are integers here.
- `hard_drop` has an empty body (a TODO), so it is not modelled.
- Colour tags use the ncurses numbering (red 1 to cyan 6), except orange, which the game defines as 8. Only their being nonzero matters.
- Piece coordinates are unbounded integers. The source's `int` overflow is never approached on a bounded board.
- The rotation is a `uint8_t` in the source. Here it is an integer in 0..3, which the two rotation functions keep.
- `Piece`'s default constructor leaves the type pointer null. It is never read before `init_pieces` replaces both pieces, so it is not modelled.
- Each piece's back-pointer to its board is not modelled. The board is passed explicitly.
- `Board::place` writes without a bounds check, and an off-board write is undefined behaviour. So `Tetris.BoardPlace`, `Tetris.Lock` and `Tetris.WriteCells` require the piece to lie on the board, and the drop commands require it whenever they lock.
- `Tetris.StepKeepsInvariant` covers only commands on a running game, on a board of any size. After a loss, `run` still handles one more key in the same loop pass. `Tetris.StepKeepsPieceOnRoomyBoard` covers that key for boards at least 4 wide and 3 tall, which includes the standard 10 by 20 board.
- Ordering of clearing and the loss check: `Player::place` (src/tetris.cpp:123-126) runs `Board::place`, which promotes the next piece and calls `lose()` when it collides, before `clear_lines`. The model follows that order in `Tetris.Lock`. `Tetris.LockClearingFirst` models clearing first (see Findings).
- The number of cleared rows is not returned, because the source's `clear_lines` returns nothing.

## Findings

| source | as written | input that shows it | evidently intended | confidence | as-written member | corrected member |
|---|---|---|---|---|---|---|
| src/tetris.cpp:123-146 | `Player::place` calls `Board::place`, which promotes the next piece and calls `lose()` if it collides, before `clear_lines` runs | 4x5 board with rows `0000`, `R000`, `0000`, `0000`, `RR00`; an O piece at (1,2) with the I piece next; soft drop. The O completes the bottom row, and the I piece at row 2 fits the uncleared board. Clearing then moves the `R` of row 1 into row 2 under the I piece, and the game keeps running with an overlapping piece. The converse also happens: on rows `0000`, `0000`, `RR00`, `0000`, `00RR` with the O at (1,1), the game is lost although the I piece fits once row 2 is cleared | clear the full rows first, then promote the next piece and check it against the cleared board, so that a running game never has a colliding piece | not executed; both inputs are proved by the lemmas named here | `Tetris.Lock`, `Tetris.LockLeavesOverlapWhileRunning`, `Tetris.LockEndsGameBeforeClearing` | `Tetris.LockClearingFirst`, `Tetris.StepClearingFirstKeepsFree` |
