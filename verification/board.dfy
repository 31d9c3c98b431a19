/**
 The playing field: a height x width matrix of colour tags indexed [y][x],
 where 0 is an empty cell. Reads off the board yield 0; full rows are cleared
 by a single forward scan.
 */
module Boards {

  const StandardWidth := 10
  const StandardHeight := 20

  datatype Board = Board(width: int, height: int, state: seq<seq<int>>)

  /** The stored matrix has exactly `height` rows of `width` cells. */
  predicate WellFormed(b: Board)
  {
    && 0 <= b.width
    && 0 <= b.height
    && |b.state| == b.height
    && forall y | 0 <= y < |b.state| :: |b.state[y]| == b.width
  }

  function BlankRow(width: nat): (r: seq<int>)
    ensures |r| == width
    ensures forall x | 0 <= x < width :: r[x] == 0
  {
    seq(width, _ => 0)
  }

  /** A board of the given size with every cell empty. */
  function NewBoard(width: int, height: int): (b: Board)
    requires 0 <= width && 0 <= height
    ensures WellFormed(b)
    ensures b.width == width && b.height == height
    ensures forall y, x | 0 <= y < height && 0 <= x < width :: b.state[y][x] == 0
  {
    Board(width, height, seq(height, _ => BlankRow(width)))
  }

  /** The board the game is played on: 10 columns, 20 rows. */
  function StandardBoard(): (b: Board)
    ensures WellFormed(b)
    ensures b.width == 10 && b.height == 20
    ensures forall y, x | 0 <= y < b.height && 0 <= x < b.width :: b.state[y][x] == 0
  {
    NewBoard(StandardWidth, StandardHeight)
  }

  /** The cell (x, y) is on the board: on a well-formed board, exactly when it is a valid index into the stored rows. */
  function InRange(b: Board, x: int, y: int): (r: bool)
    ensures WellFormed(b) ==> (r <==> 0 <= y < |b.state| && 0 <= x < |b.state[y]|)
  {
    (0 <= x < b.width) && (0 <= y < b.height)
  }

  /** The tag stored at column x, row y; 0 off the board. */
  function At(b: Board, x: int, y: int): (c: int)
    requires WellFormed(b)
    ensures c != 0 ==> InRange(b, x, y)
    ensures InRange(b, x, y) ==> c == b.state[y][x]
  {
    if InRange(b, x, y) then b.state[y][x] else 0
  }

  /** Two matrices of the same shape that agree on every cell are equal. */
  lemma RowsEqualByCells(a: seq<seq<int>>, c: seq<seq<int>>)
    requires |a| == |c|
    requires forall y | 0 <= y < |a| :: |a[y]| == |c[y]|
    requires forall y, x | 0 <= y < |a| && 0 <= x < |a[y]| :: a[y][x] == c[y][x]
    ensures a == c
  {
    forall y | 0 <= y < |a|
      ensures a[y] == c[y]
    {
      assert forall x | 0 <= x < |a[y]| :: a[y][x] == c[y][x];
    }
  }

  // ----- line clearing -----

  /** A row is full when none of its cells is empty. */
  predicate FullRow(row: seq<int>)
  {
    forall x | 0 <= x < |row| :: row[x] != 0
  }

  /** The number of full rows among the first n. */
  function FullCountUpTo(rows: seq<seq<int>>, n: nat): (k: nat)
    requires n <= |rows|
    ensures k <= n
  {
    if n == 0 then 0
    else FullCountUpTo(rows, n - 1) + (if FullRow(rows[n - 1]) then 1 else 0)
  }

  /** The rows among the first n that are not full, in their original order. */
  function NonFullUpTo(rows: seq<seq<int>>, n: nat): seq<seq<int>>
    requires n <= |rows|
  {
    if n == 0 then []
    else NonFullUpTo(rows, n - 1) + (if FullRow(rows[n - 1]) then [] else [rows[n - 1]])
  }

  function FullCount(rows: seq<seq<int>>): nat
  {
    FullCountUpTo(rows, |rows|)
  }

  function NonFull(rows: seq<seq<int>>): seq<seq<int>>
  {
    NonFullUpTo(rows, |rows|)
  }

  function BlankRows(k: nat, width: nat): (rs: seq<seq<int>>)
    ensures |rs| == k
    ensures forall i | 0 <= i < k :: rs[i] == BlankRow(width)
  {
    seq(k, _ => BlankRow(width))
  }

  /**
   The board contents after clearing: one blank row per full row on top,
   then the rows that were not full, in their original order.
   */
  function Cleared(rows: seq<seq<int>>, width: nat): seq<seq<int>>
  {
    BlankRows(FullCount(rows), width) + NonFull(rows)
  }

  /** The board after its full rows are cleared. */
  function ClearedBoard(b: Board): (r: Board)
    requires WellFormed(b)
    ensures WellFormed(r)
    ensures r.width == b.width && r.height == b.height
  {
    ClearedShape(b.state, b.width);
    b.(state := Cleared(b.state, b.width))
  }

  lemma {:induction false} NonFullLength(rows: seq<seq<int>>, n: nat)
    requires n <= |rows|
    ensures |NonFullUpTo(rows, n)| + FullCountUpTo(rows, n) == n
  {
    if n > 0 {
      NonFullLength(rows, n - 1);
    }
  }

  /** Every row kept is one of the input rows and is not full. */
  lemma {:induction false} NonFullMembers(rows: seq<seq<int>>, n: nat)
    requires n <= |rows|
    ensures forall r | r in NonFullUpTo(rows, n) :: r in rows && !FullRow(r)
  {
    if n > 0 {
      NonFullMembers(rows, n - 1);
    }
  }

  /** With no full row, every row is kept. */
  lemma {:induction false} NonFullOfNoFull(rows: seq<seq<int>>, n: nat)
    requires n <= |rows|
    requires forall i | 0 <= i < n :: !FullRow(rows[i])
    ensures NonFullUpTo(rows, n) == rows[..n]
    ensures FullCountUpTo(rows, n) == 0
  {
    if n > 0 {
      NonFullOfNoFull(rows, n - 1);
      assert rows[..n] == rows[..n - 1] + [rows[n - 1]];
    }
  }

  /** With every row full, nothing is kept. */
  lemma {:induction false} NonFullOfAllFull(rows: seq<seq<int>>, n: nat)
    requires n <= |rows|
    requires forall i | 0 <= i < n :: FullRow(rows[i])
    ensures NonFullUpTo(rows, n) == []
    ensures FullCountUpTo(rows, n) == n
  {
    if n > 0 {
      NonFullOfAllFull(rows, n - 1);
    }
  }

  /** Only the first n rows matter. */
  lemma {:induction false} NonFullPrefix(a: seq<seq<int>>, b: seq<seq<int>>, n: nat)
    requires n <= |a| && n <= |b|
    requires forall i | 0 <= i < n :: a[i] == b[i]
    ensures NonFullUpTo(a, n) == NonFullUpTo(b, n)
    ensures FullCountUpTo(a, n) == FullCountUpTo(b, n)
  {
    if n > 0 {
      NonFullPrefix(a, b, n - 1);
    }
  }

  /** Filtering and counting full rows distribute over concatenation. */
  lemma {:induction false} NonFullAppend(a: seq<seq<int>>, b: seq<seq<int>>, n: nat)
    requires n <= |b|
    ensures NonFullUpTo(a + b, |a| + n) == NonFull(a) + NonFullUpTo(b, n)
    ensures FullCountUpTo(a + b, |a| + n) == FullCount(a) + FullCountUpTo(b, n)
  {
    if n == 0 {
      NonFullPrefix(a + b, a, |a|);
    } else {
      NonFullAppend(a, b, n - 1);
      assert (a + b)[|a| + n - 1] == b[n - 1];
    }
  }

  /** Clearing keeps the number of rows and gives every row the board's width. */
  lemma ClearedShape(rows: seq<seq<int>>, width: nat)
    requires forall y | 0 <= y < |rows| :: |rows[y]| == width
    ensures |Cleared(rows, width)| == |rows|
    ensures forall y | 0 <= y < |rows| :: |Cleared(rows, width)[y]| == width
  {
    NonFullLength(rows, |rows|);
    NonFullMembers(rows, |rows|);
    var c := Cleared(rows, width);
    forall y | 0 <= y < |rows|
      ensures |c[y]| == width
    {
      if y >= FullCount(rows) {
        assert c[y] in NonFull(rows);
      }
    }
  }

  /** A board without full rows is left as it is. */
  lemma ClearedWithoutFullRows(rows: seq<seq<int>>, width: nat)
    requires forall i | 0 <= i < |rows| :: !FullRow(rows[i])
    ensures Cleared(rows, width) == rows
  {
    NonFullOfNoFull(rows, |rows|);
    assert rows[..|rows|] == rows;
  }

  /** A board whose rows are all full becomes all blank. */
  lemma ClearedAllFull(rows: seq<seq<int>>, width: nat)
    requires forall i | 0 <= i < |rows| :: FullRow(rows[i])
    ensures Cleared(rows, width) == BlankRows(|rows|, width)
  {
    NonFullOfAllFull(rows, |rows|);
  }

  /** With exactly one full row, clearing removes it and puts one blank row on top. */
  lemma ClearedOneFullRow(above: seq<seq<int>>, full: seq<int>, below: seq<seq<int>>, width: nat)
    requires FullRow(full)
    requires forall j | 0 <= j < |above| :: !FullRow(above[j])
    requires forall j | 0 <= j < |below| :: !FullRow(below[j])
    ensures Cleared(above + [full] + below, width) == [BlankRow(width)] + above + below
  {
    NonFullOfNoFull(above, |above|);
    NonFullOfNoFull(below, |below|);
    NonFullOfAllFull([full], 1);
    NonFullAppend(above, [full], 1);
    NonFullAppend(above + [full], below, |below|);
    assert above[..|above|] == above;
    assert below[..|below|] == below;
    assert BlankRows(1, width) == [BlankRow(width)];
  }

  /** On a board at least one column wide, no row is full after clearing. */
  lemma ClearedHasNoFullRow(rows: seq<seq<int>>, width: nat)
    requires 0 < width
    ensures forall y | 0 <= y < |Cleared(rows, width)| :: !FullRow(Cleared(rows, width)[y])
  {
    NonFullMembers(rows, |rows|);
    var c := Cleared(rows, width);
    var k := FullCount(rows);
    forall y | 0 <= y < |c|
      ensures !FullRow(c[y])
    {
      if y < k {
        assert c[y][0] == 0;
      } else {
        assert c[y] in NonFull(rows);
      }
    }
  }

  /** Clearing twice is clearing once. */
  lemma ClearedIdempotent(rows: seq<seq<int>>, width: nat)
    requires 0 < width
    ensures Cleared(Cleared(rows, width), width) == Cleared(rows, width)
  {
    ClearedHasNoFullRow(rows, width);
    ClearedWithoutFullRows(Cleared(rows, width), width);
  }

  /** Taking out the element at index |a| of a + [x] + c leaves a and c. */
  lemma SpliceOut<T>(a: seq<T>, x: T, c: seq<T>)
    ensures (a + [x] + c)[..|a|] == a
    ensures (a + [x] + c)[|a|] == x
    ensures (a + [x] + c)[|a| + 1..] == c
  {
  }

  /** The rows as they stand after the scan has examined the first `line` of them. */
  function Scanned(rows: seq<seq<int>>, width: nat, line: nat): (st: seq<seq<int>>)
    requires line <= |rows|
    ensures |st| == |rows|
  {
    NonFullLength(rows, line);
    BlankRows(FullCountUpTo(rows, line), width) + NonFullUpTo(rows, line) + rows[line..]
  }

  /** Part way through the scan there are still as many rows, each `width` wide, and the row under the index is untouched. */
  lemma ScannedShape(rows: seq<seq<int>>, width: nat, line: nat)
    requires line <= |rows|
    requires forall y | 0 <= y < |rows| :: |rows[y]| == width
    ensures |Scanned(rows, width, line)| == |rows|
    ensures forall y | 0 <= y < |rows| :: |Scanned(rows, width, line)[y]| == width
    ensures line < |rows| ==> Scanned(rows, width, line)[line] == rows[line]
  {
    NonFullLength(rows, line);
    NonFullMembers(rows, line);
    var st := Scanned(rows, width, line);
    var k := FullCountUpTo(rows, line);
    var kept := NonFullUpTo(rows, line);
    forall y | 0 <= y < |rows|
      ensures |st[y]| == width
    {
      if y < k {
      } else if y < k + |kept| {
        assert st[y] == kept[y - k];
        assert st[y] in kept;
      } else {
        assert st[y] == rows[y];
      }
    }
  }

  /** Erasing a full row under the index and inserting a blank row on top advances the scan. */
  lemma EraseStep(rows: seq<seq<int>>, width: nat, line: nat)
    requires line < |rows|
    requires FullRow(rows[line])
    ensures var st := Scanned(rows, width, line);
      [BlankRow(width)] + (st[..line] + st[line + 1..]) == Scanned(rows, width, line + 1)
  {
    var k := FullCountUpTo(rows, line);
    var kept := NonFullUpTo(rows, line);
    NonFullLength(rows, line);
    assert rows[line..] == [rows[line]] + rows[line + 1..];
    var front := BlankRows(k, width) + kept;
    assert Scanned(rows, width, line) == front + [rows[line]] + rows[line + 1..];
    SpliceOut(front, rows[line], rows[line + 1..]);
    assert [BlankRow(width)] + BlankRows(k, width) == BlankRows(k + 1, width);
  }

  /** Passing over a row that is not full advances the scan. */
  lemma KeepStep(rows: seq<seq<int>>, width: nat, line: nat)
    requires line < |rows|
    requires !FullRow(rows[line])
    ensures Scanned(rows, width, line) == Scanned(rows, width, line + 1)
  {
    assert rows[line..] == [rows[line]] + rows[line + 1..];
  }

  /** Once every row has been examined, the scan has produced the cleared rows. */
  lemma ScannedAll(rows: seq<seq<int>>, width: nat)
    ensures Scanned(rows, width, |rows|) == Cleared(rows, width)
  {
    assert rows[|rows|..] == [];
  }

  /**
   The inner scan of clear_lines: walk row `line` left to right and stop at
   the first empty cell.
   */
  method RowIsFull(b: Board, line: int) returns (full: bool)
    requires WellFormed(b)
    requires 0 <= line < b.height
    ensures full <==> FullRow(b.state[line])
  {
    full := true;
    var col := 0;
    while col < b.width
      invariant 0 <= col <= b.width
      invariant forall x | 0 <= x < col :: b.state[line][x] != 0
    {
      if At(b, col, line) == 0 {
        full := false;
        break;
      }
      col := col + 1;
    }
  }

  /**
   clear_lines: a forward scan over the rows; each full row is erased and a
   blank row is inserted on top. Only rows above the scan index shift, so no
   row is skipped and the result is the compaction `Cleared`.
   */
  method ClearLines(b: Board) returns (b': Board)
    requires WellFormed(b)
    ensures WellFormed(b')
    ensures b'.width == b.width && b'.height == b.height
    ensures b' == ClearedBoard(b)
  {
    var rows := b.state;
    b' := b;
    var line := 0;
    while line < b.height
      invariant 0 <= line <= b.height
      invariant b'.width == b.width && b'.height == b.height
      invariant b'.state == Scanned(rows, b.width, line)
    {
      ScannedShape(rows, b.width, line);
      var toClear := RowIsFull(b', line);
      if toClear {
        EraseStep(rows, b.width, line);
        b' := b'.(state := [BlankRow(b.width)] + (b'.state[..line] + b'.state[line + 1..]));
      } else {
        KeepStep(rows, b.width, line);
      }
      line := line + 1;
    }
    ScannedAll(rows, b.width);
    assert b'.state == Cleared(rows, b.width);
    assert b' == ClearedBoard(b);
  }
}
