/** The board as the program keeps it: a two-dimensional character array of which the
    top-left size-by-size square is in use. Clearing it, checking a placement, and the
    read-only scans for a full board and for a losing line (Game.c). */
module Board {
  import opened Rules
  import opened Moves

  /** The used square of the array, as a value. */
  ghost function Cells(board: array2<char>, size: int): (g: Grid)
    requires 0 <= size <= board.Length0 && size <= board.Length1
    reads board
    ensures |g| == size
    ensures forall r, c :: 0 <= r < size && 0 <= c < size ==> g[r][c] == board[r, c]
  {
    RowsOf(board, size, size)
  }

  /** The first `n` rows of the used square. */
  ghost function RowsOf(board: array2<char>, size: int, n: int): (g: seq<seq<char>>)
    requires 0 <= n <= size <= board.Length0 && size <= board.Length1
    reads board
    ensures |g| == n
    ensures forall r :: 0 <= r < n ==> |g[r]| == size
    ensures forall r, c :: 0 <= r < n && 0 <= c < size ==> g[r][c] == board[r, c]
  {
    if n == 0 then [] else RowsOf(board, size, n - 1) + [CellsOfRow(board, n - 1, size)]
  }

  /** The first `n` cells of row `r`. */
  ghost function CellsOfRow(board: array2<char>, r: int, n: int): (row: seq<char>)
    requires 0 <= r < board.Length0 && 0 <= n <= board.Length1
    reads board
    ensures |row| == n
    ensures forall c :: 0 <= c < n ==> row[c] == board[r, c]
  {
    if n == 0 then [] else CellsOfRow(board, r, n - 1) + [board[r, n - 1]]
  }

  /** Write `mark` into one cell of the used square; the board value changes at that cell only. */
  method SetCell(board: array2<char>, size: int, r: int, c: int, mark: char)
    requires 0 <= size <= board.Length0 && size <= board.Length1
    requires 0 <= r < size && 0 <= c < size
    modifies board
    ensures Cells(board, size) == old(Cells(board, size))[r := old(Cells(board, size))[r][c := mark]]
  {
    ghost var g := Cells(board, size);
    board[r, c] := mark;
    GridEquality(Cells(board, size), g[r := g[r][c := mark]]);
  }

  /** Set every cell of the n-by-n square to blank; cells outside it are untouched. */
  method RestartBoard(board: array2<char>, n: int)
    requires 0 <= n <= board.Length0 && n <= board.Length1
    modifies board
    ensures Cells(board, n) == BlankGrid(n)
    ensures forall r, c :: 0 <= r < board.Length0 && 0 <= c < board.Length1 && !(r < n && c < n) ==>
      board[r, c] == old(board[r, c])
  {
    for i := 0 to n
      invariant forall r, c :: 0 <= r < i && 0 <= c < n ==> board[r, c] == Blank
      invariant forall r, c :: 0 <= r < board.Length0 && 0 <= c < board.Length1 && !(r < i && c < n) ==>
        board[r, c] == old(board[r, c])
    {
      for j := 0 to n
        invariant forall r, c :: 0 <= r < i && 0 <= c < n ==> board[r, c] == Blank
        invariant forall c :: 0 <= c < j ==> board[i, c] == Blank
        invariant forall r, c ::
          (0 <= r < board.Length0 && 0 <= c < board.Length1 && !(r < i && c < n) && !(r == i && c < j)) ==>
          board[r, c] == old(board[r, c])
      {
        board[i, j] := Blank;
      }
    }
    GridEquality(Cells(board, n), BlankGrid(n));
  }

  /** A placement is accepted iff it is inside the board and its cell is blank; an
      out-of-range placement never reads the board. */
  method CheckRegularMoveValidity(board: array2<char>, row: int, col: int, size: int) returns (value: bool)
    requires 0 <= size <= board.Length0 && size <= board.Length1
    ensures value <==> ValidPlacement(Cells(board, size), row, col)
  {
    value := true;
    if row > size || row < 1 || col > size || col < 1 {
      value := false;
    } else if board[row - 1, col - 1] != Blank {
      value := false;
    }
  }

  /** True iff no cell of the used square is blank. */
  method CheckIfFullBoard(board: array2<char>, size: int) returns (full: bool)
    requires 0 <= size <= board.Length0 && size <= board.Length1
    ensures full <==> IsFull(Cells(board, size))
  {
    for i := 0 to size
      invariant forall r, c :: 0 <= r < i && 0 <= c < size ==> board[r, c] != Blank
    {
      for j := 0 to size
        invariant forall c :: 0 <= c < j ==> board[i, c] != Blank
      {
        if board[i, j] == Blank {
          return false;
        }
      }
    }
    return true;
  }

  /** True iff row `r` is made entirely of `mark`. */
  method CheckRow(board: array2<char>, size: int, r: int, mark: char) returns (lost: bool)
    requires 0 <= size <= board.Length0 && size <= board.Length1
    requires 0 <= r < size
    ensures lost <==> RowFull(Cells(board, size), r, mark)
  {
    lost := true;
    for i := 0 to size
      invariant lost <==> forall c :: 0 <= c < i ==> board[r, c] == mark
    {
      if board[r, i] != mark {
        lost := false;
      }
    }
  }

  /** True iff column `col` is made entirely of `mark`. */
  method CheckColumn(board: array2<char>, size: int, col: int, mark: char) returns (lost: bool)
    requires 0 <= size <= board.Length0 && size <= board.Length1
    requires 0 <= col < size
    ensures lost <==> ColumnFull(Cells(board, size), col, mark)
  {
    lost := true;
    for i := 0 to size
      invariant lost <==> forall r :: 0 <= r < i ==> board[r, col] == mark
    {
      if board[i, col] != mark {
        lost := false;
      }
    }
  }

  /** True iff some row is made entirely of `mark`. */
  method CheckRows(board: array2<char>, size: int, mark: char) returns (lost: bool)
    requires 0 <= size <= board.Length0 && size <= board.Length1
    ensures lost <==> SomeRowFull(Cells(board, size), mark)
  {
    lost := false;
    for i := 0 to size
      invariant lost <==> exists r :: 0 <= r < i && RowFull(Cells(board, size), r, mark)
    {
      var full := CheckRow(board, size, i, mark);
      if full {
        lost := true;
      }
    }
  }

  /** True iff some column is made entirely of `mark`. */
  method CheckColumns(board: array2<char>, size: int, mark: char) returns (lost: bool)
    requires 0 <= size <= board.Length0 && size <= board.Length1
    ensures lost <==> SomeColumnFull(Cells(board, size), mark)
  {
    lost := false;
    for i := 0 to size
      invariant lost <==> exists c :: 0 <= c < i && ColumnFull(Cells(board, size), c, mark)
    {
      var full := CheckColumn(board, size, i, mark);
      if full {
        lost := true;
      }
    }
  }

  /** True iff every cell (i, i) holds `mark`. */
  method CheckTopLeftToBottomRight(board: array2<char>, size: int, mark: char) returns (lost: bool)
    requires 0 <= size <= board.Length0 && size <= board.Length1
    ensures lost <==> MainDiagonalFull(Cells(board, size), mark)
  {
    for i := 0 to size
      invariant forall k :: 0 <= k < i ==> board[k, k] == mark
    {
      if board[i, i] != mark {
        return false;
      }
    }
    return true;
  }

  /** True iff every cell (i, size - 1 - i) holds `mark`. */
  method CheckTopRightToBottomLeft(board: array2<char>, size: int, mark: char) returns (lost: bool)
    requires 0 <= size <= board.Length0 && size <= board.Length1
    ensures lost <==> AntiDiagonalFull(Cells(board, size), mark)
  {
    for i := 0 to size
      invariant forall k :: 0 <= k < i ==> Cells(board, size)[k][size - 1 - k] == mark
    {
      if board[i, size - i - 1] != mark {
        return false;
      }
    }
    return true;
  }

  /** True iff one of the two diagonals is made entirely of `mark`. */
  method CheckDiagonals(board: array2<char>, size: int, mark: char) returns (lost: bool)
    requires 0 <= size <= board.Length0 && size <= board.Length1
    ensures lost <==> DiagonalFull(Cells(board, size), mark)
  {
    lost := CheckTopLeftToBottomRight(board, size, mark);
    if !lost {
      lost := CheckTopRightToBottomLeft(board, size, mark);
    }
  }

  /** True iff the player's mark forms a full row, column or diagonal: that player has lost. */
  method CheckLoseCondition(board: array2<char>, size: int, player: int) returns (lost: bool)
    requires 0 <= size <= board.Length0 && size <= board.Length1
    ensures lost <==> LoseCondition(Cells(board, size), player)
  {
    lost := false;
    var mark := if player == PlayerOne then PlayerOneMark else PlayerTwoMark;
    var rows := CheckRows(board, size, mark);
    if rows {
      lost := true;
    } else {
      var columns := CheckColumns(board, size, mark);
      if columns {
        lost := true;
      } else {
        var diagonals := CheckDiagonals(board, size, mark);
        if diagonals {
          lost := true;
        }
      }
    }
  }

  /** The announced result: the other player wins when `player` has a line, otherwise a tie. */
  method PrintResults(board: array2<char>, size: int, player: int) returns (outcome: Outcome)
    requires 0 <= size <= board.Length0 && size <= board.Length1
    ensures outcome == Verdict(Cells(board, size), player)
    ensures outcome.Winner? <==> LoseCondition(Cells(board, size), player)
  {
    var lost := CheckLoseCondition(board, size, player);
    if lost {
      outcome := Winner(if player == PlayerOne then PlayerTwo else PlayerOne);
    } else {
      outcome := Tie;
    }
  }
}
