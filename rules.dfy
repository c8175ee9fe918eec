/** Cells, marks and lines of the avoidance tic-tac-toe board (Game.c), as values.
    A board is a square grid of characters indexed from 0; players enter 1-based coordinates. */
module Rules {

  /** Largest board side the game accepts (the storage bound N of Game.c). */
  const MaxSize := 11
  const Blank := '_'
  const PlayerOne := 1
  const PlayerOneMark := 'X'
  const PlayerTwo := 2
  const PlayerTwoMark := 'O'

  /** A square board: `|g|` rows of `|g|` cells, cell (row, col) at `g[row][col]`. */
  type Grid = g: seq<seq<char>> | forall r :: 0 <= r < |g| ==> |g[r]| == |g|

  /** The mark a player writes: player 1 writes X, every other player O. */
  function MarkOf(player: int): (mark: char)
    ensures mark == PlayerOneMark || mark == PlayerTwoMark
    ensures mark == PlayerOneMark <==> player == PlayerOne
  {
    if player == PlayerOne then PlayerOneMark else PlayerTwoMark
  }

  /** The n-by-n board with every cell blank. */
  function BlankGrid(n: nat): Grid {
    seq(n, _ => seq(n, _ => Blank))
  }

  /** Two boards of the same side that agree cell by cell are equal. */
  lemma GridEquality(a: Grid, b: Grid)
    requires |a| == |b|
    requires forall r, c :: 0 <= r < |a| && 0 <= c < |a| ==> a[r][c] == b[r][c]
    ensures a == b
  {
    forall r | 0 <= r < |a|
      ensures a[r] == b[r]
    {
      assert forall c :: 0 <= c < |a| ==> a[r][c] == b[r][c];
    }
  }

  // ---------------------------------------------------------------------
  // Lines

  predicate RowFull(g: Grid, r: int, mark: char)
    requires 0 <= r < |g|
  {
    forall c :: 0 <= c < |g| ==> g[r][c] == mark
  }

  predicate ColumnFull(g: Grid, c: int, mark: char)
    requires 0 <= c < |g|
  {
    forall r :: 0 <= r < |g| ==> g[r][c] == mark
  }

  predicate SomeRowFull(g: Grid, mark: char) {
    exists r :: 0 <= r < |g| && RowFull(g, r, mark)
  }

  predicate SomeColumnFull(g: Grid, mark: char) {
    exists c :: 0 <= c < |g| && ColumnFull(g, c, mark)
  }

  /** The top-left to bottom-right diagonal, cells (i, i). */
  predicate MainDiagonalFull(g: Grid, mark: char) {
    forall i :: 0 <= i < |g| ==> g[i][i] == mark
  }

  /** The top-right to bottom-left diagonal, cells (i, size - 1 - i). */
  predicate AntiDiagonalFull(g: Grid, mark: char) {
    forall i :: 0 <= i < |g| ==> g[i][|g| - 1 - i] == mark
  }

  predicate DiagonalFull(g: Grid, mark: char) {
    MainDiagonalFull(g, mark) || AntiDiagonalFull(g, mark)
  }

  /** Some full row, column or diagonal is made entirely of `mark`. */
  predicate HasLine(g: Grid, mark: char) {
    SomeRowFull(g, mark) || SomeColumnFull(g, mark) || DiagonalFull(g, mark)
  }

  /** Under the avoidance rule a player has lost once a line of their mark exists. */
  predicate LoseCondition(g: Grid, player: int) {
    HasLine(g, MarkOf(player))
  }

  /** No cell of the board is blank. */
  predicate IsFull(g: Grid) {
    forall r, c :: 0 <= r < |g| && 0 <= c < |g| ==> g[r][c] != Blank
  }

  /** A placement at 1-based (row, col) lands inside the board on a blank cell. */
  predicate ValidPlacement(g: Grid, row: int, col: int) {
    1 <= row <= |g| && 1 <= col <= |g| && g[row - 1][col - 1] == Blank
  }

  /** An undo command is negative; its magnitude must be odd and at most the turn count. */
  predicate ValidUndo(turns: int, command: int) {
    var magnitude := -command;
    magnitude % 2 != 0 && magnitude <= turns
  }

  /** A line of `mark` on `after` was already a line on `before` when no cell
      became `mark` in between. */
  lemma LineMonotone(before: Grid, after: Grid, mark: char)
    requires |before| == |after|
    requires forall r, c :: 0 <= r < |after| && 0 <= c < |after| && after[r][c] == mark ==> before[r][c] == mark
    requires HasLine(after, mark)
    ensures HasLine(before, mark)
  {
    if SomeRowFull(after, mark) {
      var r :| 0 <= r < |after| && RowFull(after, r, mark);
      assert RowFull(before, r, mark);
    } else if SomeColumnFull(after, mark) {
      var c :| 0 <= c < |after| && ColumnFull(after, c, mark);
      assert ColumnFull(before, c, mark);
    } else if MainDiagonalFull(after, mark) {
      assert MainDiagonalFull(before, mark);
    } else {
      assert AntiDiagonalFull(before, mark);
    }
  }

  /** A freshly cleared board of side at least 1 holds no line of any mark and is not full. */
  lemma BlankGridOpen(n: nat, mark: char)
    requires 1 <= n
    requires mark != Blank
    ensures !HasLine(BlankGrid(n), mark)
    ensures !IsFull(BlankGrid(n))
  {
    var g := BlankGrid(n);
    forall r | 0 <= r < n ensures !RowFull(g, r, mark) {
      assert g[r][0] == Blank;
    }
    forall c | 0 <= c < n ensures !ColumnFull(g, c, mark) {
      assert g[0][c] == Blank;
    }
    assert g[0][0] == Blank;
    assert g[0][n - 1] == Blank;
  }

  // ---------------------------------------------------------------------
  // Counting marks

  function Occupancy(cell: char): nat {
    if cell == Blank then 0 else 1
  }

  /** Number of non-blank cells in one row. */
  function RowOccupied(row: seq<char>): nat {
    if row == [] then 0 else Occupancy(row[0]) + RowOccupied(row[1..])
  }

  /** Number of non-blank cells of a board. */
  function Occupied(g: seq<seq<char>>): nat {
    if g == [] then 0 else RowOccupied(g[0]) + Occupied(g[1..])
  }

  lemma {:induction false} RowOccupiedUpdate(row: seq<char>, c: int, x: char)
    requires 0 <= c < |row|
    ensures RowOccupied(row[c := x]) == RowOccupied(row) - Occupancy(row[c]) + Occupancy(x)
  {
    if c > 0 {
      assert row[c := x][1..] == row[1..][c - 1 := x];
      RowOccupiedUpdate(row[1..], c - 1, x);
    } else {
      assert row[c := x][1..] == row[1..];
    }
  }

  lemma {:induction false} OccupiedRowUpdate(g: seq<seq<char>>, r: int, row: seq<char>)
    requires 0 <= r < |g|
    ensures Occupied(g[r := row]) == Occupied(g) - RowOccupied(g[r]) + RowOccupied(row)
  {
    if r > 0 {
      assert g[r := row][1..] == g[1..][r - 1 := row];
      OccupiedRowUpdate(g[1..], r - 1, row);
    } else {
      assert g[r := row][1..] == g[1..];
    }
  }

  /** Writing `x` into one cell changes the count by that cell's change of occupancy. */
  lemma OccupiedUpdate(g: Grid, r: int, c: int, x: char)
    requires 0 <= r < |g| && 0 <= c < |g|
    ensures Occupied(g[r := g[r][c := x]]) == Occupied(g) - Occupancy(g[r][c]) + Occupancy(x)
  {
    RowOccupiedUpdate(g[r], c, x);
    OccupiedRowUpdate(g, r, g[r][c := x]);
  }

  lemma {:induction false} RowOccupiedBelow(row: seq<char>, c: int)
    requires 0 <= c < |row| && row[c] == Blank
    ensures RowOccupied(row) < |row|
  {
    if c > 0 {
      RowOccupiedBelow(row[1..], c - 1);
    } else {
      RowOccupiedAtMost(row[1..]);
    }
  }

  lemma {:induction false} RowOccupiedAtMost(row: seq<char>)
    ensures RowOccupied(row) <= |row|
  {
    if row != [] {
      RowOccupiedAtMost(row[1..]);
    }
  }

  /** A board whose rows have `width` cells holds at most `|g| * width` marks,
      and fewer when the blank cell (r, c) exists. */
  lemma {:induction false} OccupiedBound(g: seq<seq<char>>, width: nat, r: int, c: int)
    requires forall i :: 0 <= i < |g| ==> |g[i]| == width
    ensures Occupied(g) <= |g| * width
    ensures 0 <= r < |g| && 0 <= c < width && g[r][c] == Blank ==> Occupied(g) < |g| * width
  {
    if g != [] {
      OccupiedBound(g[1..], width, r - 1, c);
      if r == 0 && 0 <= c < width && g[r][c] == Blank {
        RowOccupiedBelow(g[0], c);
      } else {
        RowOccupiedAtMost(g[0]);
      }
      PeelRow(|g|, width);
    }
  }

  lemma PeelRow(rows: int, width: int)
    ensures rows * width == width + (rows - 1) * width
  {
  }

  /** A board with no mark on it counts zero marks. */
  lemma {:induction false} OccupiedNone(g: seq<seq<char>>)
    requires forall r, c :: 0 <= r < |g| && 0 <= c < |g[r]| ==> g[r][c] == Blank
    ensures Occupied(g) == 0
  {
    if g != [] {
      RowOccupiedNone(g[0]);
      OccupiedNone(g[1..]);
    }
  }

  lemma {:induction false} RowOccupiedNone(row: seq<char>)
    requires forall c :: 0 <= c < |row| ==> row[c] == Blank
    ensures RowOccupied(row) == 0
  {
    if row != [] {
      RowOccupiedNone(row[1..]);
    }
  }
}
