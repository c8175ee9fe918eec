# Avoidance tic-tac-toe in Dafny

A model of the game core of `Game.c`, a terminal tic-tac-toe on a square board of side
1..11 played under the avoidance rule: a player who completes a full row, column or diagonal of
their own mark loses. Player 1 writes `X`, player 2 writes `O`, and a blank cell is `_`.

The model has five modules.

- `Rules` (rules.dfy) holds the board as a value (`Grid`, a square `seq<seq<char>>`), the line
  predicates behind the lose check, fullness, and the validity rules for a placement and an undo.
- `Moves` (moves.dfy) holds the whole game as a value. `State` is the grid, the move history and
  the turn count. `Place` and `Undo` are `regular_move` and `undo_move`. `NextValidCommand` and
  `HandleTurn` are one call of `player_turn_event_handler` on a sequence of integer tokens.
  `Play` is the `game` loop up to the decision `print_results` makes. The lemmas there state the
  bookkeeping invariant `Consistent`: the first `turns` history entries are distinct, they name
  exactly the marked cells, the later slots are zeroed, and `turns` counts the marks. They also
  state the parity invariant `Alternating`, under which the entry at index i carries `X` exactly
  when i is even, and show that both survive every accepted command. Finally they state what the
  end of a game means.
- `Board` (board.dfy) holds the functions of `Game.c` that work on the board array, as methods
  over an `array2<char>` with the loops of the source. Each one is proved against the
  corresponding `Rules` predicate.
- `Game` (game.dfy) holds the class `Session`, which has the board, the history (an
  `array2<int>` with one `(row, col)` row per possible move) and the turn counter that `main`
  threads through every call. Its methods update them in place, as `regular_move`, `undo_move`,
  the turn handler and the game loop do. Each is proved to move the session's value `Model()`
  exactly as the `Moves` function does.
- `Scenarios` (scenarios.dfy) holds concrete boards and games. These include the row and diagonal
  lose cases, a full board with no line, the rejected undo magnitudes, a game on a 1-by-1 board,
  and a 3-by-3 game with rejected placements, a rejected and an accepted undo, and a loss.

Input is a sequence of integer tokens read from a position. Running out of tokens ends the game
with the ending `Stalled`; the source would wait for more input instead.

An accepted undo ends the turn. The turn handler's loop runs only while the turn count is
unchanged (Game.c:141), and an accepted undo changes it. The game loop then hands the move to
the other player (Game.c:98). `Moves.ApplyParity` shows that this keeps turn parity: after an
undo of an odd number of moves, the player the parity names is the other one. The third turn of
`Scenarios.ShortGame` is a concrete instance.

## Model

| member | source | states |
|---|---|---|
| Rules.BlankGridOpen | Game.c:106-110 | a freshly cleared board of side at least 1 holds no line of any mark and is not full |
| Rules.LineMonotone | Game.c:232-293 | a line of a mark on a later board was already on the earlier board when no cell became that mark in between |
| Rules.MarkOf | Game.c:161 | the mark written is always X or O, and it is X exactly for player 1 |
| Moves.InitialConsistent | Game.c:84-91 | the blank board, zeroed history and zero turns `main` starts from satisfy the bookkeeping and parity invariants |
| Moves.FreshGame | Game.c:84-89 | the starting position with tracked player 2 meets the game loop's invariant and the board is not full |
| Moves.Place | Game.c:160-165 | the placed cell holds the player's mark, history slot `turns` holds (row, col), the turn count grows by one, and board and history keep their sizes |
| Moves.PlaceEffect | Game.c:160-165 | a placement marks exactly its cell with the player's mark (X for player 1, O otherwise), fills exactly history slot `turns` with (row, col), and adds one turn |
| Moves.PlacePreserves | Game.c:160-165 | a placement on a blank in-range cell always finds a free history slot and keeps the bookkeeping invariant |
| Moves.PlaceAlternates | Game.c:160-165 | when the player named by the turn parity places, every applied move still carries the mark of its parity |
| Moves.UndoStep | Game.c:182-188 | one pass of the undo loop blanks the cell named by the entry at `turns - 1 - i` and zeroes that entry |
| Moves.Undo | Game.c:181-190 | undoing k moves, most recent first, lowers the turn count by exactly k, keeps board and history sizes, and leaves every applied entry inside the board |
| Moves.UndoEffect | Game.c:181-190 | undoing k moves blanks exactly the cells named by the latest k entries, zeroes exactly those entries and lowers the turn count by k; nothing else changes |
| Moves.UndoPreserves | Game.c:181-190 | any undo of at most `turns` moves keeps the bookkeeping invariant |
| Moves.UndoAlternates | Game.c:181-190 | undo keeps the remaining moves' marks alternating |
| Moves.UndoDistinct | Game.c:181-190 | undo keeps the remaining history entries pairwise distinct |
| Moves.PlaceUndoRoundTrip | Game.c:160-190 | a valid placement followed by an undo of one move restores board, history and turn count exactly |
| Moves.NextValidCommand | Game.c:140-155 | reading from a position yields a command valid for the state, or nothing once the tokens run out; an undo comes from one negative token of that magnitude, a placement from a row token and a column token |
| Moves.FirstAcceptedCommand | Game.c:141-155 | reading commands one after another from `at`, the handler takes the first accepted command and ends after it; every command before it was rejected; and when it returns nothing, every command to the end was rejected |
| Moves.Apply | Game.c:143-153 | applying an accepted command keeps the bookkeeping invariant and the board side |
| Moves.HandleTurn | Game.c:138-156 | one call of the handler keeps the bookkeeping invariant and reads forward from `at`, never past the end of the input |
| Moves.HandleTurnResult | Game.c:138-156 | the turn handler returns with the turn count changed, by +1 after a placement or down by an odd amount after an undo, having read at least one token; if nothing changed, the state is the same and all tokens are used up |
| Moves.ApplyParity | Game.c:141-153 | when the player the parity names plays any accepted command, the marks stay alternating, and after a change the parity names the other player |
| Moves.ApplyMarks | Game.c:143-153 | no command by a player creates a cell holding another player's mark |
| Moves.NextPlayer | Game.c:98 | player 1 follows player 2, and player 2 follows any other player; the result is always 1 or 2 and differs from a player 1 or 2 it follows |
| Moves.Play | Game.c:95-102 | the loop ends `Finished` only when the tracked player has a line or the board is full, with the announced result being `Verdict` of that board; it ends `Stalled` only on a board that is not full; the bookkeeping invariant holds at the end |
| Moves.PlayTurn | Game.c:97-100 | one pass of the game loop: the other player takes a turn; the game stalls if that changed nothing, otherwise it goes on from the new state and position |
| Moves.PlayOutcome | Game.c:95-102 | a game ends with a winner only if the last mover has a line, and the winner is the other player, who has no line; a tie happens only on a full board with no line; parity holds throughout |
| Moves.Verdict | Game.c:297-302 | a winner is announced iff the tracked player has a line, and the winner is `Opponent` of the tracked player, never the tracked player itself |
| Moves.Opponent | Game.c:299 | the other player, always 1 or 2 and never the given player; for players 1 and 2 it is the same as `NextPlayer` |
| Board.RestartBoard | Game.c:106-110 | every cell of the size-by-size square is blank afterwards, and cells outside it are untouched |
| Board.CheckRegularMoveValidity | Game.c:169-176 | the result is true iff row and col lie in 1..size and that cell is blank |
| Board.CheckIfFullBoard | Game.c:206-212 | the result is true iff no cell is blank |
| Board.CheckRow | Game.c:259-265 | the result is true iff every cell of the row holds the mark |
| Board.CheckColumn | Game.c:269-275 | the result is true iff every cell of the column holds the mark |
| Board.CheckRows | Game.c:232-238 | the result is true iff some row is full of the mark |
| Board.CheckColumns | Game.c:242-248 | the result is true iff some column is full of the mark |
| Board.CheckTopLeftToBottomRight | Game.c:279-284 | the result is true iff every cell (i, i) holds the mark |
| Board.CheckTopRightToBottomLeft | Game.c:288-293 | the result is true iff every cell (i, size - 1 - i) holds the mark |
| Board.CheckDiagonals | Game.c:252-255 | the result is true iff either diagonal is full of the mark |
| Board.CheckLoseCondition | Game.c:216-228 | the result is true iff the player's mark forms a full row, column or diagonal |
| Board.PrintResults | Game.c:297-302 | the announced result names the other player as winner iff the tracked player has a line, and is a tie otherwise |
| Game.ReadBoardSize | Game.c:117-119 | tokens are skipped until one lies in 1..11, and that token is the size; if no token qualifies, all tokens are used up |
| Game.Session.constructor | Game.c:84-91 | the session starts as a blank board of side n with a zeroed history and no turns |
| Game.Session.CheckUndoMoveValidity | Game.c:194-202 | an undo is accepted iff its magnitude is odd and at most the turn count |
| Game.Session.RegularMove | Game.c:160-165 | the session moves exactly as `Place` says, and the bookkeeping invariant is kept |
| Game.Session.UndoMove | Game.c:181-190 | the session moves exactly as `Undo` by the command's magnitude says, and the bookkeeping invariant is kept |
| Game.Session.RevertEntry | Game.c:182-188 | one pass of the undo loop takes the board and history from i undone moves to i + 1 |
| Game.Session.HandleCommand | Game.c:142-154 | one pass of the handler's loop reads at least one token and keeps the handler's invariant |
| Game.Session.PlayerTurnEventHandler | Game.c:138-156 | the session and the read position end up exactly where `HandleTurn` puts them |
| Game.Session.Game | Game.c:95-102 | the final session, tracked player and ending are exactly those of `Play` |
| Scenarios.TopRowLoses | Game.c:216-238 | X across the top row: player 1 has lost, player 2 has not |
| Scenarios.MainDiagonalLoses | Game.c:279-284 | X on the top-left to bottom-right diagonal: player 1 has lost |
| Scenarios.AntiDiagonalLoses | Game.c:288-293 | X on the top-right to bottom-left diagonal: player 1 has lost |
| Scenarios.MixedLinesDoNotLose | Game.c:206-228 | a full board on which every line mixes marks: it is full and neither player has lost |
| Scenarios.UndoRejections | Game.c:194-202 | with at least 2 turns an undo of 2 is rejected, and an undo of turns + 1 is always rejected |
| Scenarios.RejectedPlacements | Game.c:148-153 | a placement on a taken cell and one off the board are skipped, and the next valid pair is read |
| Scenarios.RejectedUndo | Game.c:143-147 | an even undo is skipped and the following odd undo is accepted |
| Scenarios.OneByOneGame | Game.c:95-102 | on a 1-by-1 board the first placement gives X a line, so player 2 is named winner after one move |
| Scenarios.ShortGameOutcome | Game.c:95-156 | a concrete 3-by-3 game with rejected commands and an undo ends after five moves with X on the top row and player 2 named winner |

## Left out

- The print functions (`print_welcome`, `print_board`, `print_player_turn`, `print_error`, `print_winner`, `print_tie` and the rest) only produce output. `player_turn` (Game.c:127-132) adds only prints around the handler, so the game loop calls the handler directly.
- Non-integer input is left out because the model reads integer tokens only. When `scanf` fails, the source leaves the token unread and the handler's loop spins. When the tokens run out, the model's handler returns unchanged and the game ends `Stalled`.
- The storage bound N = 11 is left out. The board is a size-by-size array and the history has size² rows, so the unused part of the N-by-N storage is not modelled. The bound itself is kept as `MaxSize`.
- `main` is kept only for its initial values, which `Game.Session.constructor` and `Moves.Initial` capture. The `first` and `second` out-pointers are locals, because their final values are never read.
- `check_row` receives a pointer to one row. `Board.CheckRow` receives the board and a row index instead.
- Game.Session.CheckUndoMoveValidity: integers are unbounded. In C the negation of the most negative `int` overflows, so the model does not capture that one token.
