# Tic-tac-toe game core, modelled in Dafny

This project models the game logic of a single-page tic-tac-toe board written as React
components in `src/src/App.js`:

- the winner check `calculateWinner`, which scans the eight lines of the 3×3 board in a
  fixed order, collects the occupied squares it meets in a `Set`, and returns the first
  complete line, a draw marker once that set holds nine squares, or nothing;
- the `Board` component's click handler, which ignores a click on a marked square or on
  a decided board and otherwise builds the next board with the mover's mark and the
  index of the move, and its status line;
- the `Game` component's state: the list of board snapshots (`history`), the pointer to
  the displayed snapshot (`currentMove`, whose parity decides whose turn it is), and the
  display order of the move list (`sortOrder`), with the handlers that update them.

Files, one module each:

- `squares.dfy` (`Squares`): cells, the nine-square grid, the board record, the eight
  lines in scan order, mark counting.
- `winner.dfy` (`Winner`): the verdict type; the scan as a method with a loop and the
  occupied-square set; `Evaluate`, a loop-free statement of what the scan returns; the
  properties of the verdict; the corrected check described under Findings.
- `board.dfy` (`BoardComponent`): the click handler and the status line.
- `game.dfy` (`GameComponent`): the `Game` class and the invariant its history keeps.
- `scenarios.dfy` (`Scenarios`): whole games played through the `Game` class.

The program keeps the index of the last move in a tenth slot of the board array. Here a
board is a record of the nine squares plus that index as a separate field. This is
faithful because the winner check reads only squares 0 to 8 and the click guard reads
only the clicked square.

The scan reports a draw as soon as its set holds nine squares. The three rows between
them cover every square, so on a full board the draw fires right after the third row,
before any column or diagonal is looked at. `Evaluate` states exactly that, and
`Winner.CalculateWinner` is proved equal to it. The consequence is listed under Findings.

## Model

| member | source | states |
|---|---|---|
| `Winner.CalculateWinner` | src/src/App.js:115-141 | The scan returns the first complete line in listed order when that line is a row, or when a square is still empty. It returns a draw when the board is full and no row is complete. Otherwise it reports an open game. |
| `Winner.AddIfOccupied` | src/src/App.js:131-133 | After a step, the set holds exactly the occupied squares among those visited so far. |
| `Winner.FirstComplete` | src/src/App.js:129-135 | The first complete line at or after k is complete, and no line between k and it is. |
| `Winner.WinNamesFirstCompleteLine` | src/src/App.js:116-135 | A reported win names one of the eight lines, in its listed orientation. Its three squares hold the reported mark, that mark is not empty, and no earlier-listed line is complete. |
| `Winner.PartialBoard` | src/src/App.js:127-140 | With an empty square there is never a draw. The game is open exactly when no line is complete. |
| `Winner.FullBoard` | src/src/App.js:129-138 | On a full board the verdict is never open. It is a win exactly when one of the three rows is complete, and a draw otherwise, even when a column or diagonal is complete. |
| `Winner.LeftColumnWinIsReportedAsDraw` | src/src/App.js:136-138 | A full board whose left column is X's, with no complete row, is reported as a draw. |
| `Winner.IntendedReportsEveryLine` | src/src/App.js:115-141 | The corrected check reports a win exactly when some line is complete, and a draw exactly when the board is full with no complete line. |
| `Winner.IntendedDiffersOnlyOnFullBoards` | src/src/App.js:136-138 | Both checks agree on whether the game is open. They differ only on a full board with no complete row and some complete column or diagonal. |
| `Squares.MarkFor` | src/src/App.js:19-23 | The mover writes X exactly when X is next, and O otherwise; never an empty square. |
| `BoardComponent.HandleClick` | src/src/App.js:16-26 | The click is dropped (no onPlay) exactly when the square is marked or the winner check reports a win or a draw. Otherwise the next board is the old one with the mover's mark on square i and i as the last move. |
| `BoardComponent.PlaceChangesOneSquare` | src/src/App.js:18-24 | The next board differs from the old one only at square i, which holds the mark, and it records i as the last move. |
| `BoardComponent.PlaceAddsOneMark` | src/src/App.js:18-24 | A move on an empty square adds one mark of the mover's kind and removes one empty square. The other player's count is unchanged. |
| `BoardComponent.StatusText` | src/src/App.js:31-38 | The three status strings by verdict: "It's a draw!" for a draw, "Winner: " and the winner's mark for a win, and "Next player: " and the mark of the player to move for an open game. |
| `BoardComponent.Status` | src/src/App.js:28-39 | The status shown is the status text of the verdict the winner check returns for the displayed board. A draw shows "It's a draw!". A win shows "Winner: " and the mark, and highlights the winning line. An open game shows "Next player: X" or "Next player: O" by turn. |
| `BoardComponent.StatusDistinguishes` | src/src/App.js:31-38 | Equal status lines mean the same kind of verdict, the same winner, or the same player to move. |
| `GameComponent.SnapshotMarks` | src/src/App.js:62-72 | Snapshot k of a playable history holds (k + 1) / 2 X marks, k / 2 O marks and 9 - k empty squares. |
| `GameComponent.HistoryAtMostTen` | src/src/App.js:62-72 | A playable history has at most ten snapshots. |
| `GameComponent.FullAfterNineMoves` | src/src/App.js:68-72 | The tenth snapshot is a full board and a decided game. |
| `GameComponent.EarlierSnapshotsOpen` | src/src/App.js:17 | Every snapshot before the last is an open game, and the next move was made on one of its empty squares. |
| `GameComponent.TurnFromMarks` | src/src/App.js:64 | In a playable history, X is to move at snapshot k exactly when the board holds as many X marks as O marks. |
| `GameComponent.TruncateAndAppend` | src/src/App.js:69 | Cutting the history after the pointer and appending a board that follows the displayed one keeps the history playable. |
| `GameComponent.Game.constructor` | src/src/App.js:62-66 | The game starts with one empty board, the pointer at it and ascending order. |
| `GameComponent.Game.XIsNext` | src/src/App.js:64 | X moves exactly when currentMove is even. |
| `GameComponent.Game.CurrentSquares` | src/src/App.js:65 | The displayed snapshot. In a valid game it is the starting board exactly when the pointer is 0. Otherwise it records a last move, and that square holds the mark of the player who moved before the pointer. |
| `GameComponent.Game.HandlePlay` | src/src/App.js:68-72 | The history becomes the snapshots up to the pointer plus the new board. The pointer moves to the new board, one past its old value. Kept snapshots are unchanged. |
| `GameComponent.Game.HandleSort` | src/src/App.js:74-76 | The sort order flips; history and pointer are not touched, so the game stays valid. |
| `GameComponent.Game.JumpTo` | src/src/App.js:78-80 | The pointer moves to the requested snapshot; history and sort order are not touched, and the game stays valid. |
| `GameComponent.Game.Click` | src/src/App.js:105 | A rejected click changes nothing. An accepted click truncates the history after the pointer and appends the displayed board with the mover's mark on i. The turn passes to the other player, and the history stays playable. |
| `Scenarios.FirstMove` | src/src/App.js:16-26 | X's opening click on square 0 marks it X, moves the pointer to 1 and shows "Next player: O". |
| `Scenarios.ClickOnMarkedSquare` | src/src/App.js:17 | Clicking a marked square again leaves history and pointer as they were. |
| `Scenarios.TopRowWin` | src/src/App.js:31-35 | X completing the top row shows "Winner: X" with squares 0, 1, 2 highlighted. A later click on a free square is ignored. |
| `Scenarios.JumpBackAndReplay` | src/src/App.js:68-80 | Two moves, a jump to the start and a new move leave two snapshots, with the pointer at 1 and X alone on square 5. |
| `Scenarios.LeftColumnOnLastMove` | src/src/App.js:129-138 | The game X0 O1 X2 O4 X3 O5 X7 O8 X6 ends with "It's a draw!" and nothing highlighted, although X completed the left column. |

## Left out

- Rendering: the `Square` component, the JSX layout, the highlight colour, and the `<li>` move list with its reversed copy. Only the `sortOrder` flag the list is ordered by is kept.
- Move descriptions ("Go to move #…", "You are at move #…"). The row is computed by floating-point division of the last-move index, and the row and column are concatenated as object literals, so the text is not a value worth specifying.
- React's `useState` and re-rendering: each setter call is an assignment to a field of `Game`, taking effect at once.
- GameComponent.Game.JumpTo: the program does no range check. Its only callers pass indices of the history list, so the model requires `nextMove < |history|`.
- GameComponent.Game.constructor: the program starts `sortOrder` at the number 1 and then negates it to booleans. Only its truthiness is read, so the model starts it at `true`.
- GameComponent.Game.HandlePlay: it accepts any board, as in the program. The playable-history invariant is kept by `Click`, which only passes boards the click handler built.
- Squares holding anything other than null, "X" or "O", and a last-move value stored in squares 0 to 8, cannot arise in the program and are not modelled.

## Findings

| source | as written | input that shows it | evidently intended | confidence | as-written member | corrected member |
|---|---|---|---|---|---|---|
| src/src/App.js:136-138 | The draw test runs inside the line loop. On a full board it fires right after the third row, so a column or diagonal completed by the ninth mark is reported as a draw. | Moves X0 O1 X2 O4 X3 O5 X7 O8 X6: X's last mark completes the left column (0, 3, 6) and fills the board. The status reads "It's a draw!" and nothing is highlighted. | Report "Winner: X" with the left column highlighted. Draw only when no line is complete. | not executed; proved | `Winner.LeftColumnWinIsReportedAsDraw`, `Scenarios.LeftColumnOnLastMove` | `Winner.EvaluateIntended`, proved by `Winner.IntendedReportsEveryLine` |

The click guard asks only whether the verdict is an open game. `Winner.IntendedDiffersOnlyOnFullBoards` proves both checks agree on that for every board. So the guard, and therefore the game's history, is the same under either check. The status line keeps the as-written check so that it shows what the program shows.
