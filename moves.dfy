/** The game's state as a value: the board, the move history and the turn counter,
    with placement, undo, one player's turn and the game loop as functions on it
    (Game.c, `regular_move`, `undo_move`, `player_turn_event_handler`, `game`). */
module Moves {
  import opened Rules

  /** One history slot: the 1-based (row, col) of a placement, or (0, 0) when empty. */
  datatype Entry = Entry(row: int, col: int)

  const Cleared := Entry(0, 0)

  /** Board, history slots (capacity size * size) and the number of applied moves. */
  datatype State = State(grid: Grid, history: seq<Entry>, turns: int)

  predicate InBounds(e: Entry, n: int) {
    1 <= e.row <= n && 1 <= e.col <= n
  }

  /** The cell an in-bounds entry names. */
  function CellAt(g: Grid, e: Entry): char
    requires InBounds(e, |g|)
  {
    g[e.row - 1][e.col - 1]
  }

  /** The turn counter indexes the history and every applied entry names a cell. */
  predicate Addressable(s: State) {
    0 <= s.turns <= |s.history| &&
    forall i :: 0 <= i < s.turns ==> InBounds(s.history[i], |s.grid|)
  }

  /** Some applied history entry names the 0-based cell (r, c). */
  predicate Recorded(s: State, r: int, c: int) {
    exists i :: 0 <= i < s.turns && 0 <= i < |s.history| && s.history[i] == Entry(r + 1, c + 1)
  }

  /** The first `turns` history entries are pairwise distinct. */
  predicate Distinct(s: State) {
    forall i, j :: 0 <= i < j < s.turns && j < |s.history| ==> s.history[i] != s.history[j]
  }

  /** The history slots after the first `turns` are cleared. */
  predicate ClearedAfter(s: State) {
    forall i :: s.turns <= i < |s.history| && 0 <= i ==> s.history[i] == Cleared
  }

  /** Every applied entry names a non-blank cell. */
  predicate EntriesMarked(s: State)
    requires Addressable(s)
  {
    forall i :: 0 <= i < s.turns ==> CellAt(s.grid, s.history[i]) != Blank
  }

  /** Every non-blank cell is named by an applied entry. */
  predicate CellsRecorded(s: State) {
    forall r, c {:trigger Recorded(s, r, c)} ::
      0 <= r < |s.grid| && 0 <= c < |s.grid| && s.grid[r][c] != Blank ==> Recorded(s, r, c)
  }

  /** The bookkeeping invariant: the first `turns` history entries are distinct and name
      exactly the non-blank cells, the slots after them are cleared, and `turns` is the
      number of non-blank cells. */
  predicate Consistent(s: State) {
    Addressable(s) &&
    |s.history| == |s.grid| * |s.grid| &&
    Distinct(s) && ClearedAfter(s) && EntriesMarked(s) && CellsRecorded(s) &&
    s.turns == Occupied(s.grid)
  }

  /** Who makes the move recorded at history index i when players alternate from player 1. */
  function MoverAt(i: int): int {
    if i % 2 == 0 then PlayerOne else PlayerTwo
  }

  /** Every applied move carries the mark of the player whose turn it was: X at even indices. */
  predicate Alternating(s: State) {
    forall i :: 0 <= i < s.turns && i < |s.history| ==>
      InBounds(s.history[i], |s.grid|) && CellAt(s.grid, s.history[i]) == MarkOf(MoverAt(i))
  }

  /** The state `main` sets up for a board of side n: a blank board, zeroed history, no turns. */
  function Initial(n: nat): State {
    State(BlankGrid(n), seq(n * n, _ => Cleared), 0)
  }

  lemma InitialConsistent(n: nat)
    ensures Consistent(Initial(n)) && Alternating(Initial(n))
  {
    OccupiedNone(BlankGrid(n));
  }

  // ---------------------------------------------------------------------
  // Placement

  /** Write the player's mark at 1-based (row, col) and record the move in the next history slot. */
  function Place(s: State, player: int, row: int, col: int): (t: State)
    requires 1 <= row <= |s.grid| && 1 <= col <= |s.grid|
    requires 0 <= s.turns < |s.history|
    ensures |t.grid| == |s.grid| && |t.history| == |s.history| && t.turns == s.turns + 1
    ensures t.grid[row - 1][col - 1] == MarkOf(player) && t.history[s.turns] == Entry(row, col)
  {
    State(s.grid[row - 1 := s.grid[row - 1][col - 1 := MarkOf(player)]],
          s.history[s.turns := Entry(row, col)],
          s.turns + 1)
  }

  /** A placement marks exactly its own cell with the player's mark, fills exactly the history
      slot the old turn count indexes with (row, col), and counts one more turn. */
  lemma PlaceEffect(s: State, player: int, row: int, col: int)
    requires 1 <= row <= |s.grid| && 1 <= col <= |s.grid|
    requires 0 <= s.turns < |s.history|
    ensures var t := Place(s, player, row, col);
      |t.grid| == |s.grid| && |t.history| == |s.history| && t.turns == s.turns + 1 &&
      (forall r, c :: 0 <= r < |s.grid| && 0 <= c < |s.grid| ==>
        t.grid[r][c] == (if r == row - 1 && c == col - 1 then MarkOf(player) else s.grid[r][c])) &&
      (forall i :: 0 <= i < |s.history| ==>
        t.history[i] == (if i == s.turns then Entry(row, col) else s.history[i]))
  {
  }

  /** A valid placement always finds a free history slot, and keeps the bookkeeping invariant. */
  lemma PlacePreserves(s: State, player: int, row: int, col: int)
    requires Consistent(s)
    requires ValidPlacement(s.grid, row, col)
    ensures s.turns < |s.history|
    ensures Consistent(Place(s, player, row, col))
  {
    OccupiedBound(s.grid, |s.grid|, row - 1, col - 1);
    PlaceFresh(s, row, col);
    PlaceMarks(s, player, row, col);
    PlaceRecords(s, player, row, col);
    OccupiedUpdate(s.grid, row - 1, col - 1, MarkOf(player));
  }

  /** The cell of a valid placement is named by no applied entry. */
  lemma PlaceFresh(s: State, row: int, col: int)
    requires Addressable(s) && EntriesMarked(s)
    requires ValidPlacement(s.grid, row, col)
    ensures forall i :: 0 <= i < s.turns ==> s.history[i] != Entry(row, col)
  {
    forall i | 0 <= i < s.turns ensures s.history[i] != Entry(row, col) {
      assert CellAt(s.grid, s.history[i]) != Blank;
    }
  }

  lemma PlaceMarks(s: State, player: int, row: int, col: int)
    requires Addressable(s) && EntriesMarked(s) && s.turns < |s.history|
    requires ValidPlacement(s.grid, row, col)
    requires forall i :: 0 <= i < s.turns ==> s.history[i] != Entry(row, col)
    ensures Addressable(Place(s, player, row, col)) && EntriesMarked(Place(s, player, row, col))
  {
    var t := Place(s, player, row, col);
    forall i | 0 <= i < s.turns ensures CellAt(t.grid, t.history[i]) == CellAt(s.grid, s.history[i]) {
      assert s.history[i] != Entry(row, col);
    }
  }

  lemma PlaceRecords(s: State, player: int, row: int, col: int)
    requires CellsRecorded(s) && 0 <= s.turns < |s.history|
    requires ValidPlacement(s.grid, row, col)
    ensures CellsRecorded(Place(s, player, row, col))
  {
    var t := Place(s, player, row, col);
    forall r, c | 0 <= r < |t.grid| && 0 <= c < |t.grid| && t.grid[r][c] != Blank
      ensures Recorded(t, r, c)
    {
      if r == row - 1 && c == col - 1 {
        assert t.history[s.turns] == Entry(r + 1, c + 1);
      } else {
        assert Recorded(s, r, c);
        var i :| 0 <= i < s.turns && 0 <= i < |s.history| && s.history[i] == Entry(r + 1, c + 1);
        assert t.history[i] == Entry(r + 1, c + 1);
      }
    }
  }

  /** Placing the mark of the player whose turn it is keeps the marks alternating. */
  lemma PlaceAlternates(s: State, row: int, col: int)
    requires Consistent(s) && Alternating(s)
    requires ValidPlacement(s.grid, row, col)
    ensures s.turns < |s.history|
    ensures Alternating(Place(s, MoverAt(s.turns), row, col))
  {
    PlacePreserves(s, MoverAt(s.turns), row, col);
    var t := Place(s, MoverAt(s.turns), row, col);
    forall i | 0 <= i < s.turns ensures CellAt(t.grid, t.history[i]) == CellAt(s.grid, s.history[i]) {
      assert CellAt(s.grid, s.history[i]) != Blank;
    }
  }

  // ---------------------------------------------------------------------
  // Undo

  /** Blank the cell named by the latest applied entry, clear that entry and drop one turn. */
  function UndoLast(s: State): State
    requires Addressable(s) && 1 <= s.turns
  {
    var e := s.history[s.turns - 1];
    State(s.grid[e.row - 1 := s.grid[e.row - 1][e.col - 1 := Blank]],
          s.history[s.turns - 1 := Cleared],
          s.turns - 1)
  }

  /** Revert the latest k moves, most recent first. */
  function Undo(s: State, k: nat): (r: State)
    requires Addressable(s) && k <= s.turns
    ensures Addressable(r) && r.turns == s.turns - k
    ensures |r.grid| == |s.grid| && |r.history| == |s.history|
    decreases k
  {
    if k == 0 then s else UndoLast(Undo(s, k - 1))
  }

  /** One more undo blanks the cell of the entry below the latest k and clears that entry:
      stated for any grid `g` and history `h` equal to those after k undos. */
  lemma UndoStep(s: State, k: nat, g: Grid, h: seq<Entry>)
    requires Addressable(s) && k < s.turns
    requires g == Undo(s, k).grid && h == Undo(s, k).history
    ensures s.turns - 1 - k < |h| && InBounds(h[s.turns - 1 - k], |g|)
    ensures var e := h[s.turns - 1 - k];
      Undo(s, k + 1).grid == g[e.row - 1 := g[e.row - 1][e.col - 1 := Blank]] &&
      Undo(s, k + 1).history == h[s.turns - 1 - k := Cleared]
  {
  }

  /** Whether the cell (row, col) is named by one of the latest k applied entries. */
  predicate Reverted(s: State, k: int, row: int, col: int) {
    exists i :: s.turns - k <= i < s.turns && 0 <= i < |s.history| && s.history[i] == Entry(row + 1, col + 1)
  }

  /** Undoing k moves blanks exactly the cells named by the latest k entries, clears exactly
      those entries, and lowers the turn count by k; everything else is unchanged. */
  lemma {:induction false} UndoEffect(s: State, k: nat)
    requires Addressable(s) && k <= s.turns
    ensures Undo(s, k).turns == s.turns - k
    ensures forall i :: 0 <= i < |s.history| ==>
      Undo(s, k).history[i] == (if s.turns - k <= i < s.turns then Cleared else s.history[i])
    ensures forall r, c :: 0 <= r < |s.grid| && 0 <= c < |s.grid| ==>
      Undo(s, k).grid[r][c] == (if Reverted(s, k, r, c) then Blank else s.grid[r][c])
  {
    if k > 0 {
      UndoEffect(s, k - 1);
      var p := Undo(s, k - 1);
      var e := p.history[p.turns - 1];
      assert e == s.history[s.turns - k];
      forall r, c | 0 <= r < |s.grid| && 0 <= c < |s.grid|
        ensures Undo(s, k).grid[r][c] == (if Reverted(s, k, r, c) then Blank else s.grid[r][c])
      {
        if r == e.row - 1 && c == e.col - 1 {
          assert s.history[s.turns - k] == Entry(r + 1, c + 1);
        } else if Reverted(s, k, r, c) {
          var i :| s.turns - k <= i < s.turns && 0 <= i < |s.history| && s.history[i] == Entry(r + 1, c + 1);
          assert i != s.turns - k;
          assert Reverted(s, k - 1, r, c);
        }
      }
    }
  }

  lemma UndoLastPreserves(s: State)
    requires Consistent(s) && 1 <= s.turns
    ensures Consistent(UndoLast(s))
  {
    UndoLastMarks(s);
    UndoLastRecords(s);
    var e := s.history[s.turns - 1];
    OccupiedUpdate(s.grid, e.row - 1, e.col - 1, Blank);
  }

  lemma UndoLastMarks(s: State)
    requires Addressable(s) && Distinct(s) && EntriesMarked(s) && 1 <= s.turns
    ensures Addressable(UndoLast(s)) && EntriesMarked(UndoLast(s))
  {
    var t := UndoLast(s);
    var e := s.history[s.turns - 1];
    forall i | 0 <= i < t.turns ensures CellAt(t.grid, t.history[i]) == CellAt(s.grid, s.history[i]) {
      assert s.history[i] != e;
    }
  }

  lemma UndoLastRecords(s: State)
    requires Addressable(s) && Distinct(s) && CellsRecorded(s) && 1 <= s.turns
    ensures CellsRecorded(UndoLast(s))
  {
    var t := UndoLast(s);
    forall r, c | 0 <= r < |t.grid| && 0 <= c < |t.grid| && t.grid[r][c] != Blank
      ensures Recorded(t, r, c)
    {
      assert s.grid[r][c] != Blank;
      assert Recorded(s, r, c);
      var i :| 0 <= i < s.turns && 0 <= i < |s.history| && s.history[i] == Entry(r + 1, c + 1);
      assert i != s.turns - 1;
      assert t.history[i] == Entry(r + 1, c + 1);
    }
  }

  /** Any undo of at most `turns` moves keeps the bookkeeping invariant. */
  lemma {:induction false} UndoPreserves(s: State, k: nat)
    requires Consistent(s) && k <= s.turns
    ensures Consistent(Undo(s, k))
  {
    if k > 0 {
      UndoPreserves(s, k - 1);
      UndoLastPreserves(Undo(s, k - 1));
    }
  }

  /** Undo keeps the marks of the remaining moves alternating. */
  lemma {:induction false} UndoAlternates(s: State, k: nat)
    requires Addressable(s) && Distinct(s) && Alternating(s) && k <= s.turns
    ensures Alternating(Undo(s, k))
  {
    if k > 0 {
      UndoAlternates(s, k - 1);
      UndoDistinct(s, k - 1);
      UndoLastAlternates(Undo(s, k - 1));
    }
  }

  /** Undo keeps the remaining applied entries pairwise distinct. */
  lemma {:induction false} UndoDistinct(s: State, k: nat)
    requires Addressable(s) && Distinct(s) && k <= s.turns
    ensures Distinct(Undo(s, k))
  {
    if k > 0 {
      UndoDistinct(s, k - 1);
    }
  }

  /** Undoing the latest move keeps the marks of the remaining moves alternating. */
  lemma UndoLastAlternates(s: State)
    requires Addressable(s) && Distinct(s) && Alternating(s) && 1 <= s.turns
    ensures Alternating(UndoLast(s))
  {
    var t := UndoLast(s);
    var e := s.history[s.turns - 1];
    forall i | 0 <= i < t.turns ensures CellAt(t.grid, t.history[i]) == CellAt(s.grid, s.history[i]) {
      assert s.history[i] != e;
    }
  }

  /** A valid placement followed by an undo of one move restores board, history and turns. */
  lemma PlaceUndoRoundTrip(s: State, player: int, row: int, col: int)
    requires Consistent(s)
    requires ValidPlacement(s.grid, row, col)
    ensures s.turns < |s.history|
    ensures Undo(Place(s, player, row, col), 1) == s
  {
    PlacePreserves(s, player, row, col);
    var t := Place(s, player, row, col);
    var u := Undo(t, 1);
    assert u == UndoLast(t);
    GridEquality(u.grid, s.grid);
    assert u.history == s.history;
  }

  // ---------------------------------------------------------------------
  // One player's turn

  /** A command read from the tokens, once found valid against the state it applies to. */
  datatype Command = PlaceAt(row: int, col: int) | UndoLatest(count: nat) | NoCommand

  /** A command the state accepts: a placement on a blank in-bounds cell, or an undo of an
      odd number of moves, at most the turn count. */
  predicate Legal(s: State, cmd: Command) {
    match cmd
    case PlaceAt(row, col) => ValidPlacement(s.grid, row, col)
    case UndoLatest(k) => 1 <= k <= s.turns && k % 2 == 1
    case NoCommand => true
  }

  /** Read commands from the integer tokens, starting at position `at`, until one is valid: a
      negative token is an undo of that magnitude, a non-negative one is a row followed by a
      column token. Rejected commands are skipped. Returns the first valid command and the
      position after it; when the tokens run out first, NoCommand and the end position. */
  function NextValidCommand(s: State, input: seq<int>, at: nat): (res: (Command, nat))
    requires at <= |input|
    ensures Legal(s, res.0)
    ensures at <= res.1 <= |input|
    ensures res.0 == NoCommand ==> res.1 == |input|
    ensures res.0.UndoLatest? ==> at < res.1 && input[res.1 - 1] == -(res.0.count as int)
    ensures res.0.PlaceAt? ==>
      at + 2 <= res.1 && input[res.1 - 2] == res.0.row && input[res.1 - 1] == res.0.col
    decreases |input| - at
  {
    if at == |input| then (NoCommand, at)
    else if input[at] < 0 then
      if ValidUndo(s.turns, input[at]) then (UndoLatest(-input[at]), at + 1)
      else NextValidCommand(s, input, at + 1)
    else if at + 1 == |input| then (NoCommand, at + 1)
    else if ValidPlacement(s.grid, input[at], input[at + 1]) then (PlaceAt(input[at], input[at + 1]), at + 2)
    else NextValidCommand(s, input, at + 2)
  }

  /** Where the command starting at token p ends: after one token for an undo, after the row and
      column tokens for a placement (or at the end when the column token is missing). */
  function CommandEnd(input: seq<int>, p: nat): (e: nat)
    requires p < |input|
    ensures p < e <= |input|
  {
    if input[p] < 0 || p + 1 == |input| then p + 1 else p + 2
  }

  /** Command starts reachable from `at` by reading whole commands. */
  predicate Chain(input: seq<int>, at: nat, p: nat)
    decreases p - at
  {
    at == p || (at < p && at < |input| && Chain(input, CommandEnd(input, at), p))
  }

  /** The command starting at token p is accepted: an undo of odd magnitude at most the turn
      count, or a row and column naming a blank in-range cell. */
  predicate Accepts(s: State, input: seq<int>, p: nat)
    requires p < |input|
  {
    if input[p] < 0 then ValidUndo(s.turns, input[p])
    else p + 1 < |input| && ValidPlacement(s.grid, input[p], input[p + 1])
  }

  /** The command the tokens at p spell out. */
  function CommandAt(input: seq<int>, p: nat): Command
    requires p < |input|
  {
    if input[p] < 0 then UndoLatest(-input[p])
    else if p + 1 < |input| then PlaceAt(input[p], input[p + 1])
    else NoCommand
  }

  /** The turn handler takes the first accepted command on the chain of command starts from
      `at` and skips every earlier one, which was rejected; when it finds none, every command on
      the chain was rejected. */
  lemma {:induction false} FirstAcceptedCommand(s: State, input: seq<int>, at: nat)
    requires at <= |input|
    ensures at < |input| && Accepts(s, input, at) ==>
      NextValidCommand(s, input, at) == (CommandAt(input, at), CommandEnd(input, at))
    ensures var (cmd, next) := NextValidCommand(s, input, at);
      cmd == NoCommand ==>
        forall p: nat :: Chain(input, at, p) && p < |input| ==> !Accepts(s, input, p)
    ensures var (cmd, next) := NextValidCommand(s, input, at);
      cmd != NoCommand ==>
        var start := if cmd.UndoLatest? then next - 1 else next - 2;
        at <= start < |input| && Chain(input, at, start) && Accepts(s, input, start) &&
        cmd == CommandAt(input, start) && next == CommandEnd(input, start) &&
        forall p: nat :: Chain(input, at, p) && p < start ==> !Accepts(s, input, p)
    decreases |input| - at
  {
    if at < |input| && !Accepts(s, input, at) {
      var e := CommandEnd(input, at);
      FirstAcceptedCommand(s, input, e);
      assert NextValidCommand(s, input, at) == NextValidCommand(s, input, e);
      forall p: nat | Chain(input, at, p) && p != at ensures Chain(input, e, p) {
      }
    }
  }

  /** The effect of a valid command played by `player`. */
  function Apply(s: State, player: int, cmd: Command): (r: State)
    requires Consistent(s) && Legal(s, cmd)
    ensures Consistent(r) && |r.grid| == |s.grid|
  {
    match cmd
    case PlaceAt(row, col) =>
      PlacePreserves(s, player, row, col);
      Place(s, player, row, col)
    case UndoLatest(k) =>
      UndoPreserves(s, k);
      Undo(s, k)
    case NoCommand => s
  }

  /** One call of the turn handler for `player` on the tokens `input` from position `at`: the
      first valid command is applied; returns the new state and the position after it. */
  function HandleTurn(s: State, player: int, input: seq<int>, at: nat): (res: (State, nat))
    requires Consistent(s) && at <= |input|
    ensures Consistent(res.0) && at <= res.1 <= |input|
  {
    var (cmd, next) := NextValidCommand(s, input, at);
    (Apply(s, player, cmd), next)
  }

  /** The handler returns only once the turn count has changed, by +1 after a placement or by
      an odd negative amount after an undo; if the tokens run out first, nothing has changed. */
  lemma HandleTurnResult(s: State, player: int, input: seq<int>, at: nat)
    requires Consistent(s) && at <= |input|
    ensures var (r, next) := HandleTurn(s, player, input, at);
      Consistent(r) && at <= next <= |input| &&
      (r.turns == s.turns ==> r == s && next == |input|) &&
      (r.turns != s.turns ==>
        at < next &&
        (r.turns == s.turns + 1 || (r.turns < s.turns && (s.turns - r.turns) % 2 == 1)))
  {
    var (cmd, next) := NextValidCommand(s, input, at);
    if cmd.PlaceAt? {
      PlacePreserves(s, player, cmd.row, cmd.col);
    }
  }

  /** When the player named by the turn count's parity moves, the marks stay alternating, and
      after any change the other player is the one the parity names. */
  lemma ApplyParity(s: State, cmd: Command)
    requires Consistent(s) && Alternating(s) && Legal(s, cmd)
    ensures var r := Apply(s, MoverAt(s.turns), cmd);
      Alternating(r) && (cmd != NoCommand ==> MoverAt(r.turns) != MoverAt(s.turns))
  {
    match cmd
    case PlaceAt(row, col) =>
      PlaceAlternates(s, row, col);
      assert Apply(s, MoverAt(s.turns), cmd) == Place(s, MoverAt(s.turns), row, col);
      OddStepFlipsMover(s.turns, 1);
    case UndoLatest(k) =>
      UndoAlternates(s, k);
      assert Apply(s, MoverAt(s.turns), cmd) == Undo(s, k);
      OddStepFlipsMover(s.turns, k);
    case NoCommand =>
  }

  /** Moving the turn count by an odd amount hands the move to the other player. */
  lemma OddStepFlipsMover(t: int, k: int)
    requires k % 2 == 1
    ensures MoverAt(t - k) != MoverAt(t) && MoverAt(t + 1) != MoverAt(t)
  {
  }

  /** No command played by `player` makes a cell hold any mark other than the player's own
      that it did not already hold. */
  lemma ApplyMarks(s: State, player: int, cmd: Command, mark: char)
    requires Consistent(s) && Legal(s, cmd)
    requires mark != Blank && mark != MarkOf(player)
    ensures var r := Apply(s, player, cmd);
      forall row, col :: 0 <= row < |s.grid| && 0 <= col < |s.grid| && r.grid[row][col] == mark ==>
        s.grid[row][col] == mark
  {
    match cmd
    case PlaceAt(row, col) =>
    case UndoLatest(k) => UndoEffect(s, k);
    case NoCommand =>
  }

  // ---------------------------------------------------------------------
  // The game loop

  /** The player who moves after `player`; the sentinel player 2 hands the first move to player 1. */
  function NextPlayer(player: int): (next: int)
    ensures next == PlayerOne || next == PlayerTwo
    ensures next == PlayerOne <==> player == PlayerTwo
    ensures player == PlayerOne || player == PlayerTwo ==> next != player
  {
    if player == PlayerTwo then PlayerOne else PlayerTwo
  }

  /** The player named winner when `player` has formed a line. */
  function Opponent(player: int): (other: int)
    ensures other == PlayerOne || other == PlayerTwo
    ensures other != player
    ensures player == PlayerOne || player == PlayerTwo ==> other == NextPlayer(player)
  {
    if player == PlayerOne then PlayerTwo else PlayerOne
  }

  datatype Outcome = Winner(player: int) | Tie

  /** How a game ended: decided, or waiting for tokens that never came. */
  datatype Ending = Finished(outcome: Outcome) | Stalled

  /** The state, the tracked player and the ending when the game loop stops. */
  datatype Final = Final(state: State, player: int, ending: Ending)

  /** The result announced at the end: the other player wins when `player` has a line, else a tie. */
  function Verdict(g: Grid, player: int): (outcome: Outcome)
    ensures outcome.Winner? <==> LoseCondition(g, player)
    ensures outcome.Winner? ==> outcome.player == Opponent(player) && outcome.player != player
  {
    if LoseCondition(g, player) then Winner(Opponent(player)) else Tie
  }

  /** The game loop from `s` with tracked player `player` on the tokens `input` from position
      `at`. While the tracked player has no line and the board is not full, the other player
      takes a turn. */
  function Play(s: State, player: int, input: seq<int>, at: nat): (f: Final)
    requires Consistent(s) && at <= |input|
    ensures Consistent(f.state) && |f.state.grid| == |s.grid|
    ensures f.ending.Finished? ==>
      (LoseCondition(f.state.grid, f.player) || IsFull(f.state.grid)) &&
      f.ending.outcome == Verdict(f.state.grid, f.player)
    ensures f.ending == Stalled ==> !IsFull(f.state.grid) && (f.player == PlayerOne || f.player == PlayerTwo)
    decreases |input| - at
  {
    if LoseCondition(s.grid, player) || IsFull(s.grid) then
      Final(s, player, Finished(Verdict(s.grid, player)))
    else
      var mover := NextPlayer(player);
      var (cmd, next) := NextValidCommand(s, input, at);
      if cmd == NoCommand then Final(s, mover, Stalled)
      else Play(Apply(s, mover, cmd), mover, input, next)
  }

  /** One pass of the game loop: the other player takes a turn; if it changes nothing the
      tokens have run out and the game stalls, otherwise the loop goes on from the new state
      and the new position. */
  lemma PlayTurn(s: State, player: int, input: seq<int>, at: nat)
    requires Consistent(s) && at <= |input|
    requires !LoseCondition(s.grid, player) && !IsFull(s.grid)
    ensures var (r, next) := HandleTurn(s, NextPlayer(player), input, at);
      next <= |input| && Consistent(r) &&
      Play(s, player, input, at) ==
        (if r.turns == s.turns then Final(s, NextPlayer(player), Stalled)
         else Play(r, NextPlayer(player), input, next))
  {
    var (cmd, next) := NextValidCommand(s, input, at);
    match cmd
    case PlaceAt(row, col) =>
      PlacePreserves(s, NextPlayer(player), row, col);
    case UndoLatest(k) =>
    case NoCommand =>
  }

  /** What holds at the head of the game loop: players 1 and 2 alternate with the parity of the
      turn count, and the player about to move has no line. */
  predicate LoopInvariant(s: State, player: int) {
    Consistent(s) && Alternating(s) &&
    (player == PlayerOne || player == PlayerTwo) &&
    NextPlayer(player) == MoverAt(s.turns) &&
    !LoseCondition(s.grid, NextPlayer(player))
  }

  /** The game ends as the rules promise: a winner is named only when the last mover has a line,
      and the winner is the other player, who has none; a tie only on a full board with no line;
      player 1 moves exactly when the turn count is even. */
  lemma {:induction false} PlayOutcome(s: State, player: int, input: seq<int>, at: nat)
    requires LoopInvariant(s, player) && at <= |input|
    ensures var f := Play(s, player, input, at);
      Consistent(f.state) && Alternating(f.state) &&
      (f.ending == Stalled ==> f.player == MoverAt(f.state.turns)) &&
      (f.ending.Finished? ==>
        NextPlayer(f.player) == MoverAt(f.state.turns) &&
        !LoseCondition(f.state.grid, NextPlayer(f.player)) &&
        (f.ending.outcome == Tie ==> IsFull(f.state.grid) && !LoseCondition(f.state.grid, f.player)) &&
        (f.ending.outcome.Winner? ==>
           LoseCondition(f.state.grid, f.player) &&
           f.ending.outcome.player == NextPlayer(f.player) &&
           !LoseCondition(f.state.grid, f.ending.outcome.player)))
    decreases |input| - at
  {
    if !(LoseCondition(s.grid, player) || IsFull(s.grid)) {
      var mover := NextPlayer(player);
      var (cmd, next) := NextValidCommand(s, input, at);
      if cmd != NoCommand {
        var r := Apply(s, mover, cmd);
        ApplyParity(s, cmd);
        ApplyMarks(s, mover, cmd, MarkOf(player));
        if LoseCondition(r.grid, player) {
          LineMonotone(s.grid, r.grid, MarkOf(player));
        }
        PlayOutcome(r, mover, input, next);
      }
    }
  }

  /** A game started as `main` starts it (blank board of side at least 1, tracked player 2)
      satisfies the loop invariant, so PlayOutcome applies to it. */
  lemma FreshGame(n: nat)
    requires 1 <= n
    ensures LoopInvariant(Initial(n), PlayerTwo)
    ensures !IsFull(Initial(n).grid)
  {
    InitialConsistent(n);
    BlankGridOpen(n, PlayerOneMark);
  }
}
