/** One game session: the board, the move history and the turn counter that Game.c keeps in
    `main` and threads through every call, updated in place by placements and undos, with the
    per-turn input loop and the game loop over a sequence of integer tokens. */
module Game {
  import opened Rules
  import opened Moves
  import opened Board

  /** The size-reading loop of the preparations: tokens are skipped until one lies in
      1..MaxSize. Returns that size and the tokens consumed, or 0 and all of them when no
      token qualifies. */
  method ReadBoardSize(input: seq<int>) returns (size: int, used: nat)
    ensures used <= |input|
    ensures forall i :: 0 <= i < used - 1 ==> !(1 <= input[i] <= MaxSize)
    ensures 1 <= size <= MaxSize ==> 1 <= used && input[used - 1] == size
    ensures !(1 <= size <= MaxSize) ==>
      size == 0 && used == |input| && forall i :: 0 <= i < |input| ==> !(1 <= input[i] <= MaxSize)
  {
    size := 0;
    used := 0;
    while used < |input| && (size < 1 || size > MaxSize)
      invariant used <= |input|
      invariant forall i :: 0 <= i < used - 1 ==> !(1 <= input[i] <= MaxSize)
      invariant 1 <= size <= MaxSize ==> 1 <= used && input[used - 1] == size
      invariant !(1 <= size <= MaxSize) ==> forall i :: 0 <= i < used ==> !(1 <= input[i] <= MaxSize)
    {
      size := input[used];
      used := used + 1;
    }
    if !(1 <= size <= MaxSize) {
      size := 0;
    }
  }

  class Session {
    /** Side of the board, fixed when the game is prepared. */
    const size: int
    /** The size-by-size board of blank, X and O cells. */
    const board: array2<char>
    /** One row per possible move holding its 1-based (row, col); (0, 0) when empty. */
    const history: array2<int>
    /** Number of moves currently applied. */
    var turns: int

    /** The session as a value. */
    ghost function Model(): State
      reads this, board, history
      requires 0 <= size <= board.Length0 && size <= board.Length1 && history.Length1 == 2
    {
      State(Cells(board, size), EntriesOf(history), turns)
    }

    /** The dimensions fixed when the game is prepared. */
    ghost predicate Shaped() {
      1 <= size <= MaxSize &&
      board.Length0 == size && board.Length1 == size &&
      history.Length0 == size * size && history.Length1 == 2
    }

    ghost predicate Valid()
      reads this, board, history
    {
      Shaped() && Consistent(Model())
    }

    /** What `main` and the preparations set up: a cleared board of side n, a zeroed history
        and no turns. */
    constructor (n: int)
      requires 1 <= n <= MaxSize
      ensures Valid() && Model() == Initial(n)
      ensures fresh(board) && fresh(history)
    {
      size := n;
      board := new char[n, n];
      history := new int[n * n, 2]((_, _) => 0);
      turns := 0;
      new;
      RestartBoard(board, n);
      assert EntriesOf(history) == Initial(n).history;
      InitialConsistent(n);
    }

    /** Accept an undo command iff its magnitude is odd and at most the turn count;
        nothing is changed. */
    method CheckUndoMoveValidity(command: int) returns (valid: bool)
      ensures valid <==> ValidUndo(turns, command)
    {
      valid := true;
      var magnitude := -command;
      if magnitude % 2 == 0 {
        valid := false;
      } else if magnitude > turns {
        valid := false;
      }
    }

    /** Write the player's mark at the 1-based (row, col), then count the turn and record the
        move in the history slot it indexes; nothing else changes. */
    method RegularMove(player: int, row: int, col: int)
      requires Valid()
      requires ValidPlacement(Cells(board, size), row, col)
      modifies this, board, history
      ensures Valid()
      ensures old(Model()).turns < |old(Model()).history| &&
        Model() == Place(old(Model()), player, row, col)
    {
      ghost var s := Model();
      PlacePreserves(s, player, row, col);
      SetCell(board, size, row - 1, col - 1, if player == PlayerOne then PlayerOneMark else PlayerTwoMark);
      turns := turns + 1;
      SetEntry(history, turns - 1, row, col);
    }

    /** Undo the latest -command moves, most recent first: blank the cell each history entry
        names and zero the entry, then lower the turn count by the magnitude. */
    method UndoMove(command: int)
      requires Valid()
      requires command < 0 && -command <= turns
      modifies this, board, history
      ensures Valid()
      ensures Model() == Undo(old(Model()), -command)
    {
      ghost var s := Model();
      UndoPreserves(s, -command);
      for i := 0 to -command
        invariant turns == s.turns
        invariant Cells(board, size) == Undo(s, i).grid
        invariant EntriesOf(history) == Undo(s, i).history
      {
        RevertEntry(s, i);
      }
      turns := turns + command;
      assert Model() == Undo(s, -command);
    }

    /** One pass of UndoMove's loop: blank the cell the history entry below the latest i names
        and zero the entry, taking the session from i undone moves to i + 1. */
    method RevertEntry(ghost s: State, i: int)
      requires Shaped() && Addressable(s) && 0 <= i < s.turns && turns == s.turns
      requires Cells(board, size) == Undo(s, i).grid
      requires EntriesOf(history) == Undo(s, i).history
      modifies board, history
      ensures Cells(board, size) == Undo(s, i + 1).grid
      ensures EntriesOf(history) == Undo(s, i + 1).history
    {
      var turn := turns - 1 - i;
      UndoStep(s, i, Cells(board, size), EntriesOf(history));
      var row, col := history[turn, 0], history[turn, 1];
      SetCell(board, size, row - 1, col - 1, Blank);
      SetEntry(history, turn, 0, 0);
    }

    /** One player's turn: read tokens from position `at` until a command changes the turn
        count. A negative token is an undo, checked and applied; otherwise it is a row, the
        next token a column, and the placement is checked and applied. Rejected commands
        change nothing. Stops early only when the tokens run out. Returns the position after
        the tokens read. */
    method PlayerTurnEventHandler(player: int, input: seq<int>, at: nat) returns (next: nat)
      requires Valid() && at <= |input|
      modifies this, board, history
      ensures Valid()
      ensures (Model(), next) == HandleTurn(old(Model()), player, input, at)
    {
      ghost var s := Model();
      var currentTurns := turns;
      next := at;
      while currentTurns == turns && next < |input|
        invariant currentTurns == s.turns && TurnInvariant(s, player, input, at, next)
        decreases |input| - next
      {
        next := HandleCommand(s, player, input, at, next);
      }
      HandleTurnResult(s, player, input, at);
    }

    /** The turn handler's loop invariant from session `s` and start position `at`: while the
        turn count is unchanged the session is still `s` and the first valid command from `at`
        is the first valid command from `next`; once it has changed, the session and the
        position are those of HandleTurn. */
    ghost predicate TurnInvariant(s: State, player: int, input: seq<int>, at: nat, next: nat)
      reads this, board, history
    {
      Shaped() && Consistent(s) && at <= next <= |input| &&
      (turns == s.turns ==>
        Model() == s && NextValidCommand(s, input, at) == NextValidCommand(s, input, next)) &&
      (turns != s.turns ==> (Model(), next) == HandleTurn(s, player, input, at))
    }

    /** One pass of the turn handler's loop: read one command at position `pos`, check it and
        apply it when valid. */
    method HandleCommand(ghost s: State, player: int, input: seq<int>, at: nat, pos: nat) returns (next: nat)
      requires TurnInvariant(s, player, input, at, pos) && turns == s.turns && pos < |input|
      modifies this, board, history
      ensures TurnInvariant(s, player, input, at, next) && pos < next
    {
      next := pos;
      var first := input[next];
      next := next + 1;
      if first < 0 {
        var valid := CheckUndoMoveValidity(first);
        if valid {
          UndoMove(first);
          assert NextValidCommand(s, input, pos) == (UndoLatest(-first), next);
        } else {
          assert NextValidCommand(s, input, pos) == NextValidCommand(s, input, next);
        }
      } else if next < |input| {
        var second := input[next];
        next := next + 1;
        var valid := CheckRegularMoveValidity(board, first, second, size);
        if valid {
          RegularMove(player, first, second);
          assert NextValidCommand(s, input, pos) == (PlaceAt(first, second), next);
        } else {
          assert NextValidCommand(s, input, pos) == NextValidCommand(s, input, next);
        }
      } else {
        assert NextValidCommand(s, input, pos) == NextValidCommand(s, input, next);
      }
    }

    /** The game loop from tracked player `player`, reading tokens from position `at`: while
        that player has no line and the board is not full, hand the turn to the other player;
        then announce the result. Returns the tracked player and how the game ended (Stalled
        when the tokens ran out first). */
    method Game(player: int, input: seq<int>, at: nat) returns (last: int, ending: Ending)
      requires Valid() && at <= |input|
      modifies this, board, history
      ensures Valid()
      ensures Final(Model(), last, ending) == Play(old(Model()), player, input, at)
    {
      ghost var s := Model();
      last := player;
      var pos := at;
      var lost := CheckLoseCondition(board, size, last);
      var full := CheckIfFullBoard(board, size);
      while !lost && !full
        invariant Valid() && pos <= |input|
        invariant lost == LoseCondition(Model().grid, last) && full == IsFull(Model().grid)
        invariant Play(s, player, input, at) == Play(Model(), last, input, pos)
        decreases |input| - pos
      {
        PlayTurn(Model(), last, input, pos);
        last := NextPlayer(last);
        var before := turns;
        var next := PlayerTurnEventHandler(last, input, pos);
        if turns == before {
          return last, Stalled;
        }
        pos := next;
        lost := CheckLoseCondition(board, size, last);
        full := CheckIfFullBoard(board, size);
      }
      var outcome := PrintResults(board, size, last);
      ending := Finished(outcome);
    }
  }

  /** The history array as a sequence of entries, one per row. */
  ghost function EntriesOf(history: array2<int>): (e: seq<Entry>)
    reads history
    requires history.Length1 == 2
    ensures |e| == history.Length0
    ensures forall i :: 0 <= i < history.Length0 ==> e[i] == Entry(history[i, 0], history[i, 1])
  {
    EntriesUpTo(history, history.Length0)
  }

  /** The first `n` entries of the history array. */
  ghost function EntriesUpTo(history: array2<int>, n: int): (e: seq<Entry>)
    reads history
    requires history.Length1 == 2 && 0 <= n <= history.Length0
    ensures |e| == n
    ensures forall i :: 0 <= i < n ==> e[i] == Entry(history[i, 0], history[i, 1])
  {
    if n == 0 then [] else EntriesUpTo(history, n - 1) + [Entry(history[n - 1, 0], history[n - 1, 1])]
  }

  /** Overwrite one history entry; the other entries are unchanged. */
  method SetEntry(history: array2<int>, turn: int, row: int, col: int)
    requires history.Length1 == 2 && 0 <= turn < history.Length0
    modifies history
    ensures EntriesOf(history) == old(EntriesOf(history))[turn := Entry(row, col)]
  {
    history[turn, 0] := row;
    history[turn, 1] := col;
  }

}
