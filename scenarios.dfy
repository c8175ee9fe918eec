/** Concrete situations of the game, stated on small boards. */
module Scenarios {
  import opened Rules
  import opened Moves

  /** The 3-by-3 board whose rows, top to bottom, are (a, b, c), (d, e, f) and (g, h, i). */
  function BoardOf(a: char, b: char, c: char, d: char, e: char, f: char, g: char, h: char, i: char): (r: Grid)
    ensures |r| == 3 && r[0] == [a, b, c] && r[1] == [d, e, f] && r[2] == [g, h, i]
  {
    [[a, b, c], [d, e, f], [g, h, i]]
  }

  /** X on the whole top row: player 1 has lost, player 2 has not. */
  lemma TopRowLoses()
    ensures LoseCondition(BoardOf('X', 'X', 'X', 'O', 'O', '_', '_', '_', '_'), PlayerOne)
    ensures !LoseCondition(BoardOf('X', 'X', 'X', 'O', 'O', '_', '_', '_', '_'), PlayerTwo)
  {
    var g := BoardOf('X', 'X', 'X', 'O', 'O', '_', '_', '_', '_');
    assert RowFull(g, 0, 'X');
    NoLine(g, 'O', 0, 2, 2, 0, 0, 2);
  }

  /** X on the top-left to bottom-right diagonal: player 1 has lost. */
  lemma MainDiagonalLoses()
    ensures LoseCondition(BoardOf('X', 'O', '_', '_', 'X', 'O', '_', '_', 'X'), PlayerOne)
  {
  }

  /** X on the top-right to bottom-left diagonal: player 1 has lost. */
  lemma AntiDiagonalLoses()
    ensures LoseCondition(BoardOf('O', '_', 'X', '_', 'X', 'O', 'X', '_', '_'), PlayerOne)
  {
  }

  /** A board whose lines all mix marks: nobody has lost even though it is full. */
  lemma MixedLinesDoNotLose()
    ensures IsFull(BoardOf('X', 'X', 'O', 'O', 'O', 'X', 'X', 'O', 'X'))
    ensures !LoseCondition(BoardOf('X', 'X', 'O', 'O', 'O', 'X', 'X', 'O', 'X'), PlayerOne)
    ensures !LoseCondition(BoardOf('X', 'X', 'O', 'O', 'O', 'X', 'X', 'O', 'X'), PlayerTwo)
  {
    var g := BoardOf('X', 'X', 'O', 'O', 'O', 'X', 'X', 'O', 'X');
    NoLine(g, 'X', 2, 0, 1, 1, 1, 0);
    NoLine(g, 'O', 0, 2, 0, 0, 0, 1);
  }

  /** A 3-by-3 board has no line of `mark` when each row holds something else somewhere (row 0
      at column r0, row 1 at r1, row 2 at r2), so does each column (column 0 at row c0, column 1
      at c1, column 2 at c2), and so does each diagonal. */
  lemma NoLine(g: Grid, mark: char, r0: int, r1: int, r2: int, c0: int, c1: int, c2: int)
    requires |g| == 3
    requires 0 <= r0 < 3 && 0 <= r1 < 3 && 0 <= r2 < 3 && 0 <= c0 < 3 && 0 <= c1 < 3 && 0 <= c2 < 3
    requires g[0][r0] != mark && g[1][r1] != mark && g[2][r2] != mark
    requires g[c0][0] != mark && g[c1][1] != mark && g[c2][2] != mark
    requires g[0][0] != mark || g[1][1] != mark || g[2][2] != mark
    requires g[0][2] != mark || g[1][1] != mark || g[2][0] != mark
    ensures !HasLine(g, mark)
  {
  }

  /** With t >= 2 moves applied an undo of 2 is rejected, and an undo of t + 1 always is. */
  lemma UndoRejections(t: int)
    ensures t >= 2 ==> !ValidUndo(t, -2)
    ensures !ValidUndo(t, -(t + 1))
  {
  }

  /** On a 1-by-1 board the first placement fills the board and forms every line of X, so
      player 1 loses and player 2 is named winner. */
  lemma OneByOneGame()
    ensures Consistent(Initial(1)) &&
      Play(Initial(1), PlayerTwo, [1, 1], 0) ==
        Final(State([['X']], [Entry(1, 1)], 1), PlayerOne, Finished(Winner(PlayerTwo)))
  {
    var s := Initial(1);
    FreshGame(1);
    BlankGridOpen(1, PlayerTwoMark);
    assert s.grid[0][0] == Blank;
    GridEquality(s.grid, [[Blank]]);
    assert NextValidCommand(s, [1, 1], 0) == (PlaceAt(1, 1), 2);
    var t := Place(s, PlayerOne, 1, 1);
    GridEquality(t.grid, [['X']]);
    assert t.history == [Entry(1, 1)];
    assert RowFull(t.grid, 0, 'X');
  }

  /** When the player after `player` finds a valid command from `at`, the game loop goes on
      from the state that command produces. */
  lemma TurnTaken(s: State, player: int, input: seq<int>, at: nat, cmd: Command, next: nat)
    requires Consistent(s) && at <= |input|
    requires !LoseCondition(s.grid, player) && !IsFull(s.grid)
    requires NextValidCommand(s, input, at) == (cmd, next) && cmd != NoCommand
    ensures next <= |input|
    ensures Play(s, player, input, at) == Play(Apply(s, NextPlayer(player), cmd), NextPlayer(player), input, next)
  {
  }

  /** The tokens of a short 3-by-3 game. X plays (1,1). O tries the taken (1,1) and the
      off-board (4,1), both rejected, then plays (2,1). X's undo of 2 is rejected (even) and
      its undo of 1 takes back O's move, ending X's turn. O plays (2,1) again, X (1,2), O (2,2),
      and X completes the top row with (1,3). */
  const ShortGame: seq<int> := [1, 1, 1, 1, 4, 1, 2, 1, -2, -1, 2, 1, 1, 2, 2, 2, 1, 3]

  /** A 3-by-3 history holding the given entries, then cleared slots. */
  function History(entries: seq<Entry>): (h: seq<Entry>)
    requires |entries| <= 9
    ensures |h| == 9
    ensures forall i :: 0 <= i < 9 ==> h[i] == (if i < |entries| then entries[i] else Cleared)
  {
    entries + seq(9 - |entries|, _ => Cleared)
  }

  /** The states of ShortGame after one to five moves. */
  function AfterOne(): State {
    State(BoardOf('X', '_', '_', '_', '_', '_', '_', '_', '_'), History([Entry(1, 1)]), 1)
  }

  function AfterTwo(): State {
    State(BoardOf('X', '_', '_', 'O', '_', '_', '_', '_', '_'), History([Entry(1, 1), Entry(2, 1)]), 2)
  }

  function AfterThree(): State {
    State(BoardOf('X', 'X', '_', 'O', '_', '_', '_', '_', '_'),
          History([Entry(1, 1), Entry(2, 1), Entry(1, 2)]), 3)
  }

  function AfterFour(): State {
    State(BoardOf('X', 'X', '_', 'O', 'O', '_', '_', '_', '_'),
          History([Entry(1, 1), Entry(2, 1), Entry(1, 2), Entry(2, 2)]), 4)
  }

  function AfterFive(): State {
    State(BoardOf('X', 'X', 'X', 'O', 'O', '_', '_', '_', '_'),
          History([Entry(1, 1), Entry(2, 1), Entry(1, 2), Entry(2, 2), Entry(1, 3)]), 5)
  }

  /** Placing on a 3-by-3 state gives `t` when `t` differs from it exactly as Place says. */
  lemma PlacedAs(s: State, player: int, row: int, col: int, t: State)
    requires Consistent(s) && ValidPlacement(s.grid, row, col)
    requires |t.grid| == |s.grid| && |t.history| == |s.history| && t.turns == s.turns + 1
    requires forall r, c :: 0 <= r < |s.grid| && 0 <= c < |s.grid| ==>
      t.grid[r][c] == (if r == row - 1 && c == col - 1 then MarkOf(player) else s.grid[r][c])
    requires forall i :: 0 <= i < |s.history| ==>
      t.history[i] == (if i == s.turns then Entry(row, col) else s.history[i])
    ensures Consistent(t)
    ensures Apply(s, player, PlaceAt(row, col)) == t
  {
    PlacePreserves(s, player, row, col);
    PlaceEffect(s, player, row, col);
    var p := Place(s, player, row, col);
    GridEquality(p.grid, t.grid);
    assert p.history == t.history;
  }

  /** After one move nobody can have lost, and cell (3,3) is still blank. */
  lemma AfterOneOpen()
    ensures !LoseCondition(AfterOne().grid, PlayerOne) && !IsFull(AfterOne().grid)
  {
    NoLine(AfterOne().grid, 'X', 1, 0, 0, 1, 0, 0);
    assert AfterOne().grid[2][2] == Blank;
  }

  lemma AfterTwoOpen()
    ensures !LoseCondition(AfterTwo().grid, PlayerTwo) && !IsFull(AfterTwo().grid)
  {
    NoLine(AfterTwo().grid, 'O', 1, 1, 0, 0, 0, 0);
    assert AfterTwo().grid[2][2] == Blank;
  }

  lemma AfterThreeOpen()
    ensures !LoseCondition(AfterThree().grid, PlayerOne) && !IsFull(AfterThree().grid)
  {
    NoLine(AfterThree().grid, 'X', 2, 0, 0, 1, 1, 0);
    assert AfterThree().grid[2][2] == Blank;
  }

  lemma AfterFourOpen()
    ensures !LoseCondition(AfterFour().grid, PlayerTwo) && !IsFull(AfterFour().grid)
  {
    NoLine(AfterFour().grid, 'O', 1, 2, 0, 0, 0, 0);
    assert AfterFour().grid[2][2] == Blank;
  }

  /** O's first turn reads the taken (1,1) and the off-board (4,1), both rejected, then (2,1). */
  lemma RejectedPlacements()
    ensures NextValidCommand(AfterOne(), ShortGame, 2) == (PlaceAt(2, 1), 8)
  {
    assert NextValidCommand(AfterOne(), ShortGame, 2) == NextValidCommand(AfterOne(), ShortGame, 4);
    assert NextValidCommand(AfterOne(), ShortGame, 4) == NextValidCommand(AfterOne(), ShortGame, 6);
  }

  /** X's undo of 2 is rejected as even, its undo of 1 accepted. */
  lemma RejectedUndo()
    ensures NextValidCommand(AfterTwo(), ShortGame, 8) == (UndoLatest(1), 10)
  {
    assert NextValidCommand(AfterTwo(), ShortGame, 8) == NextValidCommand(AfterTwo(), ShortGame, 9);
  }

  /** The placements read at once, each on a blank in-range cell. */
  lemma AcceptedPlacements()
    ensures NextValidCommand(Initial(3), ShortGame, 0) == (PlaceAt(1, 1), 2)
    ensures NextValidCommand(AfterOne(), ShortGame, 10) == (PlaceAt(2, 1), 12)
    ensures NextValidCommand(AfterTwo(), ShortGame, 12) == (PlaceAt(1, 2), 14)
    ensures NextValidCommand(AfterThree(), ShortGame, 14) == (PlaceAt(2, 2), 16)
    ensures NextValidCommand(AfterFour(), ShortGame, 16) == (PlaceAt(1, 3), 18)
  {
    assert Initial(3).grid[0][0] == Blank;
  }

  /** The five placements of ShortGame, each from the state before it to the state after. */
  lemma FirstMove()
    ensures Consistent(Initial(3)) && Consistent(AfterOne())
    ensures Apply(Initial(3), PlayerOne, PlaceAt(1, 1)) == AfterOne()
  {
    InitialConsistent(3);
    assert Initial(3).grid[0][0] == Blank;
    PlacedAs(Initial(3), PlayerOne, 1, 1, AfterOne());
  }

  lemma SecondMove()
    requires Consistent(AfterOne())
    ensures Consistent(AfterTwo()) && Apply(AfterOne(), PlayerTwo, PlaceAt(2, 1)) == AfterTwo()
  {
    PlacedAs(AfterOne(), PlayerTwo, 2, 1, AfterTwo());
  }

  lemma ThirdMove()
    requires Consistent(AfterTwo())
    ensures Consistent(AfterThree()) && Apply(AfterTwo(), PlayerOne, PlaceAt(1, 2)) == AfterThree()
  {
    PlacedAs(AfterTwo(), PlayerOne, 1, 2, AfterThree());
  }

  lemma FourthMove()
    requires Consistent(AfterThree())
    ensures Consistent(AfterFour()) && Apply(AfterThree(), PlayerTwo, PlaceAt(2, 2)) == AfterFour()
  {
    PlacedAs(AfterThree(), PlayerTwo, 2, 2, AfterFour());
  }

  lemma FifthMove()
    requires Consistent(AfterFour())
    ensures Consistent(AfterFive()) && Apply(AfterFour(), PlayerOne, PlaceAt(1, 3)) == AfterFive()
  {
    PlacedAs(AfterFour(), PlayerOne, 1, 3, AfterFive());
  }

  /** X plays (1,1). */
  lemma FirstTurn()
    ensures Consistent(Initial(3)) && Consistent(AfterOne())
    ensures Play(Initial(3), PlayerTwo, ShortGame, 0) == Play(AfterOne(), PlayerOne, ShortGame, 2)
  {
    FirstMove();
    BlankGridOpen(3, PlayerTwoMark);
    AcceptedPlacements();
    TurnTaken(Initial(3), PlayerTwo, ShortGame, 0, PlaceAt(1, 1), 2);
  }

  /** O's (1,1) and (4,1) are rejected, then O plays (2,1). */
  lemma SecondTurn()
    requires Consistent(AfterOne())
    ensures Consistent(AfterTwo())
    ensures Play(AfterOne(), PlayerOne, ShortGame, 2) == Play(AfterTwo(), PlayerTwo, ShortGame, 8)
  {
    AfterOneOpen();
    RejectedPlacements();
    SecondMove();
    TurnTaken(AfterOne(), PlayerOne, ShortGame, 2, PlaceAt(2, 1), 8);
  }

  /** X's undo of 2 is rejected and its undo of 1 takes back O's move. */
  lemma ThirdTurn()
    requires Consistent(AfterOne()) && Consistent(AfterTwo())
    ensures Play(AfterTwo(), PlayerTwo, ShortGame, 8) == Play(AfterOne(), PlayerOne, ShortGame, 10)
  {
    AfterTwoOpen();
    RejectedUndo();
    SecondMove();
    PlaceUndoRoundTrip(AfterOne(), PlayerTwo, 2, 1);
    TurnTaken(AfterTwo(), PlayerTwo, ShortGame, 8, UndoLatest(1), 10);
  }

  /** O plays (2,1) again. */
  lemma FourthTurn()
    requires Consistent(AfterOne())
    ensures Consistent(AfterTwo())
    ensures Play(AfterOne(), PlayerOne, ShortGame, 10) == Play(AfterTwo(), PlayerTwo, ShortGame, 12)
  {
    AfterOneOpen();
    AcceptedPlacements();
    SecondMove();
    TurnTaken(AfterOne(), PlayerOne, ShortGame, 10, PlaceAt(2, 1), 12);
  }

  /** X plays (1,2). */
  lemma FifthTurn()
    requires Consistent(AfterTwo())
    ensures Consistent(AfterThree())
    ensures Play(AfterTwo(), PlayerTwo, ShortGame, 12) == Play(AfterThree(), PlayerOne, ShortGame, 14)
  {
    AfterTwoOpen();
    AcceptedPlacements();
    ThirdMove();
    TurnTaken(AfterTwo(), PlayerTwo, ShortGame, 12, PlaceAt(1, 2), 14);
  }

  /** O plays (2,2). */
  lemma SixthTurn()
    requires Consistent(AfterThree())
    ensures Consistent(AfterFour())
    ensures Play(AfterThree(), PlayerOne, ShortGame, 14) == Play(AfterFour(), PlayerTwo, ShortGame, 16)
  {
    AfterThreeOpen();
    AcceptedPlacements();
    FourthMove();
    TurnTaken(AfterThree(), PlayerOne, ShortGame, 14, PlaceAt(2, 2), 16);
  }

  /** X plays (1,3), completing the top row: the loop stops and player 2 is named winner. */
  lemma SeventhTurn()
    requires Consistent(AfterFour())
    ensures Consistent(AfterFive())
    ensures Play(AfterFour(), PlayerTwo, ShortGame, 16) ==
      Final(AfterFive(), PlayerOne, Finished(Winner(PlayerTwo)))
  {
    AfterFourOpen();
    AcceptedPlacements();
    FifthMove();
    TurnTaken(AfterFour(), PlayerTwo, ShortGame, 16, PlaceAt(1, 3), 18);
    assert RowFull(AfterFive().grid, 0, 'X');
  }

  /** Played from the state `main` sets up for side 3, ShortGame ends after five moves with
      player 1 holding the top row, so player 2 is named winner. */
  lemma ShortGameOutcome()
    ensures Consistent(Initial(3)) &&
      Play(Initial(3), PlayerTwo, ShortGame, 0) == Final(AfterFive(), PlayerOne, Finished(Winner(PlayerTwo)))
  {
    FirstTurn();
    SecondTurn();
    ThirdTurn();
    FourthTurn();
    FifthTurn();
    SixthTurn();
    SeventhTurn();
  }
}
