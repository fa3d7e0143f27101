# Tic-tac-toe game engine in Dafny

This project models the game engine `TicTacToeGame` of a Tkinter tic-tac-toe
program. The engine exists in two near-duplicate versions:

- `tictactoe.py` searches to a depth bound that grows as the board fills.
  It scores cut-off positions with `heuristic_evaluation`.
- `test.py` searches to the end of the game. It also has `process_move`,
  `getWinner` and `is_tied`.

Each version becomes a Dafny class named `TicTacToeGame`: module `TicTacToe`
in `tictactoe.dfy` and module `TestGame` in `test_game.dfy`. Both classes
keep the source's fields:

- `size` (board_size);
- the player tuple and the position in it (`turn`), plus `currentPlayer`;
- `moves` (`_current_moves`, a list of rows of `Move` records);
- `hasWinner`, `winnerCombo` and `_winning_combos`;
- in `TestGame` also `winner` (`_winner`).

Methods that update the board in place reassign `moves`.

Shared definitions:

- `BoardState` (`board_state.dfy`) holds the values both versions share:
  - the `Label` of a cell (`""`, `"X"`, `"O"`) and the `Move` record;
  - the `Winner` tags `X` / `Y` / `TIE` / `None` that `get_winner` reports;
  - the winning lines and the `get_winner` scan;
  - the line count of `heuristic_evaluation`;
  - the set-based win test of `test.py`;
  - the count of empty cells;
  - the cyclic turn order.
- `Search` (`search.dfy`) defines the value of `minimax` and the choice of
  `ai` as functions on a board value, for both versions at once. A `Variant`
  says which version: `DepthLimited(maxDepth)` for `tictactoe.py`,
  `Exhaustive` for `test.py`.

How the search is modelled:

- The loops of `minimax` become `ScanRows` and `ScanCols`. An alpha-beta
  cutoff (`break`) ends only the scan of the current row; the next row
  continues from the cut-off state, as in the source.
- Each search method of the classes is proved to compute these functions
  and to leave the board exactly as it found it.
- Lemmas prove what the functions mean:
  - every score lies strictly between the stand-ins for ±infinity;
  - `ai` returns the first empty cell, in row-major order, with the highest
    score, and `None` only on a full board;
  - this choice is unique.

Two behaviours of the code are kept as written:

- **The O win in `tictactoe.py`.** Its `get_winner` reports a line of O's as
  `"Y"` (tictactoe.py:161), but its `minimax` compares the winner with `"O"`
  (tictactoe.py:101). An O win therefore never matches that test and takes
  the heuristic branch, not `10 - depth`.
  - `Search.Terminal` scores a `Y` result with `HeuristicValue` in the
    `DepthLimited` variant; `Search.MinimaxTerminal` states this.
  - `test.py` compares with `"Y"` (test.py:131) and scores `10 - depth`; that
    is the `Exhaustive` variant.
- **`ai` on a full board.** No cell is tried, so `best_move` keeps its
  initial `None` and is returned (tictactoe.py:94). The model returns `None`
  there too (`Search.BestBy`, `Search.AiChoiceIsBest`).

## Model

| member | source | states |
|---|---|---|
| BoardState.EmptyBoard | tictactoe.py:38-42 | The board `_setup_board` builds is n×n, cell (r, c) holds a Move for (r, c), and every cell is unplayed. |
| BoardState.Place | tictactoe.py:86-88 | Storing `Move(r, c, l)` in cell (r, c): that cell then holds exactly this move, every other cell is unchanged, and the board keeps its shape and its cells' coordinates. |
| BoardState.UndoRestores | tictactoe.py:113-115 | Writing `Move(row, col)` back after simulating a label in an empty cell restores the board exactly. |
| BoardState.WinningCombos | tictactoe.py:45-53 | `_get_winning_combos`: rows, transposed columns, first diagonal and diagonal of the reversed columns are exactly the n row lines, the n column lines, the main diagonal (i, i) and the anti-diagonal (j, n-1-j), in that order. |
| BoardState.StoredRows | tictactoe.py:46-49 | The (row, col) pairs of the stored moves form an n×n grid whose entry (r, c) is (r, c). |
| BoardState.Transpose | tictactoe.py:50 | `zip(*rows)`: column c has n entries, and its entry r is entry c of row r. |
| BoardState.Diagonal | tictactoe.py:51-52 | Entry i of the diagonal is entry i of line i. |
| BoardState.Reversed | tictactoe.py:52 | `reversed(columns)` holds the same columns, last first. |
| BoardState.CombosAreLines | tictactoe.py:53 | The four parts, concatenated, are the geometric lines `Lines(n)`. |
| BoardState.LinesShape | test.py:46-54 | There are 2n+2 lines of n cells each. Every cell is on the board, the cells of a line are distinct, and cell (r, c) lies in row line r and column line n+c. |
| BoardState.LinesInRange | tictactoe.py:45-53 | Every cell of every winning line lies on the n×n board. |
| BoardState.LinesDistinct | tictactoe.py:45-53 | No winning line repeats a cell. |
| BoardState.LinesCover | test.py:46-54 | Every cell (r, c) lies in row line r and in column line n+c. |
| BoardState.LineCell | tictactoe.py:45-53 | Cell j of line i: (i, j) for a row line, (j, i-n) for a column line, (j, j) on the main diagonal, (j, n-1-j) on the anti-diagonal. |
| BoardState.LinesWithinBoard | tictactoe.py:43 | The lines the constructor stores fit the board it builds. |
| BoardState.WinnerFrom | tictactoe.py:157-168 | From line i on: an X or Y result names a line filled by X (then X) or by O (then Y), with no filled line before it. Otherwise no line from i on is filled, and the result is TIE exactly on a full board. |
| BoardState.GetWinner | tictactoe.py:155-168 | `get_winner`: ("X", line) or ("Y", line) for the first line filled by one label. Otherwise ("TIE", []) exactly when every cell is labelled, and (None, []) exactly when one is not. |
| BoardState.CountOpenDisjoint | tictactoe.py:141-150 | No line is open for both players, so the two counts add up to at most the number of lines. |
| BoardState.HeuristicBounds | tictactoe.py:137-152 | `heuristic_evaluation` lies within ±(number of lines), i.e. ±(2N+2) on the stored lines. |
| BoardState.BlankIsEmptyBoard | tictactoe.py:70-74 | A well-formed board with no labelled cell is the board `_setup_board` builds. |
| BoardState.CountOpenOfBlank | tictactoe.py:141-150 | On a board nobody has played, no line is open for either label. |
| BoardState.HeuristicOfBlankBoard | tictactoe.py:137-152 | `heuristic_evaluation` is 0 on an unplayed board. |
| BoardState.IsWinIff | test.py:68-69 | The set-based test (one distinct label, not "") holds exactly when the line has cells and is filled by X or by O, i.e. it agrees with `get_winner`'s test. |
| BoardState.FirstWin | test.py:67-74 | The line where the `process_move` loop stops is a winning line, and no line before it wins; with no winning line it is the end of the list. |
| BoardState.FirstWinIsWinner | test.py:67-74 | When every line has cells, the `process_move` loop finds a winning line exactly when `get_winner` reports X or Y, and it is the same line. |
| BoardState.WinTestsAgree | test.py:76-84 | On the stored lines of a board with N > 0, `process_move` and `getWinner` detect a win exactly when `get_winner` does, on the same line. |
| BoardState.RowEmptiesBound | test.py:94-96 | A row has at most as many empty cells as cells, and none exactly when every label is non-empty. |
| BoardState.EmptyCountBound | tictactoe.py:164 | An n×n board has at most n² empty cells, and none exactly when it is full (the tie test). |
| BoardState.RowEmptiesUpdate | tictactoe.py:113 | Labelling an empty cell of a row removes exactly one empty cell. |
| BoardState.EmptyCountPlace | tictactoe.py:113-114 | Simulating a move uses up exactly one empty cell, the measure by which the recursion of `minimax` terminates. |
| BoardState.DefaultPlayersAlternate | test.py:98-100 | With the two default players, the cycle index after k toggles is k mod 2, so the player it selects is X for even k and O for odd k. |
| Search.Advance | tictactoe.py:117-132 | One trial: best_score becomes exactly the max (min) of itself and the score; alpha becomes exactly the max of itself and the new best_score (beta the min); the other bound is unchanged. |
| Search.MinimaxTerminal | tictactoe.py:97-106 | An X line scores -10 + depth and a tie 0. An O line ("Y") scores the heuristic in the depth-limited search and 10 - depth in the exhaustive one. At max_depth an undecided position scores the heuristic. |
| Search.TerminalBounds | tictactoe.py:97-106 | A terminal score lies within 10 + depth + (number of lines), and the search goes on only on a board with an empty cell. |
| Search.MinimaxBounded | tictactoe.py:96-135 | Every `minimax` score is bounded by 10 + depth + empty cells + lines, so it never equals the ±inf stand-ins. |
| Search.ScanRowsBounded | tictactoe.py:108-121 | A scan keeps best_score at its starting infinity or within the bound, and within the bound once some remaining row has an empty cell. |
| Search.ScanColsBounded | tictactoe.py:111-121 | The same for the scan of one row from a column on. |
| Search.ScanTrialBounded | tictactoe.py:112-120 | After a trial at an empty cell, best_score is within the bound. |
| Search.SearchDepth | tictactoe.py:87 | The depth bound `2 + int((max_cells - cells_left) / max_cells * 2)` lies in 2..4. It is 2 while fewer than half the cells are filled, and 4 exactly on a full board. |
| Search.DivideByCells | tictactoe.py:87 | The integer part of x/m for 0 <= x <= 2m is 0, 1 or 2: 0 exactly below m, and 2 exactly at 2m. |
| Search.AiScore | tictactoe.py:85-88 | The score of "O" at an empty cell lies strictly between -inf and +inf, so the first empty cell always beats the starting best_score. |
| Search.AiScores | tictactoe.py:83-88 | The scores of every empty cell lie strictly between the ±inf stand-ins. |
| Search.BestByUnique | tictactoe.py:90-92 | The strict `>` tie-break makes the choice unique. |
| Search.AiChoiceIsBest | tictactoe.py:78-94 | The move `ai` returns is the first empty cell in row-major order with the maximal score, and None only on a full board. |
| Search.AiChoiceUnique | test.py:110-125 | A choice has that property exactly when it is the move `ai` returns. |
| Search.PickRowsBest | tictactoe.py:83-92 | The rest of the scan from the start of a row, resumed from a correct partial choice, ends in the best choice. |
| Search.PickColsBest | tictactoe.py:84-92 | The same from any column of a row. |
| Search.PickSkipBest | tictactoe.py:85 | The same after a played cell. |
| Search.PickTrialBest | tictactoe.py:85-92 | The same after a tried empty cell. |
| Search.PickTakeBest | tictactoe.py:90-92 | The same after a cell that beats best_score. |
| Search.PickKeepBest | tictactoe.py:90 | The same after a cell that does not. |
| TicTacToe.TicTacToeGame.constructor | tictactoe.py:28-43 | Players default to (X, O) and board_size to 3. An empty board of board_size, its 2N+2 lines, the first player to move after zero toggles, no winner and no winning line. |
| TicTacToe.TicTacToeGame.IsValidMove | tictactoe.py:55-60 | True exactly when there is no winner and the move's cell is unplayed. |
| TicTacToe.TicTacToeGame.HasWinner | tictactoe.py:62-64 | Returns the winner flag. |
| TicTacToe.TicTacToeGame.TogglePlayer | tictactoe.py:66-68 | The turn moves one place along the player tuple, wrapping around; current_player is the player at that place; one more toggle is counted, so the turn stays `TurnAfter` of the count. |
| TicTacToe.TicTacToeGame.CurrentPlayerAlternates | tictactoe.py:29-31 | With the default players, current_player after k toggles (including the constructor's first `next`) is X for even k and O for odd k. |
| TicTacToe.TicTacToeGame.ResetGame | tictactoe.py:70-76 | Every cell is unplayed again (the board `_setup_board` builds). The winner flag and line are cleared; the current player and the lines are kept. |
| TicTacToe.TicTacToeGame.HeuristicEvaluation | tictactoe.py:137-152 | The loop computes lines open for "O" minus lines open for "X" (bounded by HeuristicBounds). |
| TicTacToe.TicTacToeGame.Minimax | tictactoe.py:96-107 | depth defaults to 0. Returns the depth-limited minimax value of the board and leaves the board unchanged. |
| TicTacToe.TicTacToeGame.MaximizingPly | tictactoe.py:108-121 | The maximizing loops return the value of the row-by-row scan, where a cutoff ends only the current row, and restore every simulated cell. |
| TicTacToe.TicTacToeGame.MinimizingPly | tictactoe.py:122-135 | The same for the minimizing loops with "X". |
| TicTacToe.TicTacToeGame.TryMove | tictactoe.py:85-88 | Simulating "O", searching from the minimizing side at depth 0, and undoing gives AiScore and leaves the board unchanged. |
| TicTacToe.TicTacToeGame.Ai | tictactoe.py:78-94 | Returns the first empty cell with the highest score under the depth bound for cells_left, None only on a full board, and leaves the board unchanged. |
| TestGame.TicTacToeGame.constructor | test.py:28-44 | Players default to (X, O) and board_size to 3. An empty board of board_size, its lines, the first player to move after zero toggles, no winner flag, no winning line, `_winner` "". |
| TestGame.TicTacToeGame.IsValidMove | test.py:56-61 | True exactly when there is no winner and the move's cell is unplayed. |
| TestGame.TicTacToeGame.ProcessMove | test.py:63-74 | The move is stored in its cell. If a line now holds one label other than "", the flag is set, the first such line is recorded and `_winner` is the mover's label. Otherwise the flag, line and `_winner` are unchanged. |
| TestGame.TicTacToeGame.GetWinnerOfMove | test.py:76-84 | The move is stored in its cell. The result is the mover's label exactly when some line holds one label other than "", and None otherwise. Nothing else changes. |
| TestGame.TicTacToeGame.HasWinner | test.py:86-88 | Returns the winner flag. |
| TestGame.TicTacToeGame.IsTied | test.py:90-96 | True exactly when no winner is recorded and no empty cell is left. |
| TestGame.TicTacToeGame.TogglePlayer | test.py:98-100 | The turn moves one place along the player tuple, wrapping around; current_player is the player there; one more toggle is counted, so the turn stays `TurnAfter` of the count. |
| TestGame.TicTacToeGame.CurrentPlayerAlternates | test.py:29-31 | With the default players, current_player after k toggles is X for even k and O for odd k. |
| TestGame.TicTacToeGame.ResetGame | test.py:102-108 | Every cell is unplayed again. The winner flag and line are cleared; `_winner`, the current player and the lines are kept. |
| TestGame.TicTacToeGame.Minimax | test.py:127-135 | Returns the exhaustive minimax value (X line -10 + depth, "Y" line 10 - depth, tie 0) and leaves the board unchanged. |
| TestGame.TicTacToeGame.MaximizingPly | test.py:136-149 | The maximizing loops return the row-by-row scan value, with a cutoff ending only the current row, and restore every cell. |
| TestGame.TicTacToeGame.MinimizingPly | test.py:150-163 | The same for the minimizing loops with "X". |
| TestGame.TicTacToeGame.TryMove | test.py:116-119 | Simulating "O", searching exhaustively from the minimizing side, and undoing gives AiScore and leaves the board unchanged. |
| TestGame.TicTacToeGame.Ai | test.py:110-125 | Returns the first empty cell with the highest exhaustive score, None only on a full board, and leaves the board unchanged. |

## Left out

- The `TicTacToeBoard` Tk class and `main` (tictactoe.py:171-309, test.py:182-321) are user interface, as is the commented-out `play`. The UI's `_cells_left` counter becomes the `cellsLeft` parameter of `ai`, with 0 <= cellsLeft <= N². The UI's direct write to `_has_winner` is not modelled.
- `Player.color` is presentation only. Players are reduced to their labels.
- `itertools.cycle` becomes an index into the player tuple taken modulo its length.
- Move labels are limited to "", "X" and "O" (the `Label` datatype). The `label` field of `Move` is named `mark`.
- `±float("inf")` becomes ±`Infinity(N, lines)` = ±(11 + N² + number of lines). `MinimaxBounded` proves this is beyond every score, so comparisons against it behave as with infinity.
- Search.SearchDepth: the source computes the depth bound in floating point and truncates with `int`. The model uses exact integer division. The two agree unless rounding of `(max_cells - cells_left) / max_cells` crosses an integer, which cannot happen on boards of practical size.
- Coordinates outside 0..N-1 raise IndexError in Python, and negative ones index from the end. The model requires 0 <= row, col < N instead.
- test.py's `get_winner` returns only the tag, without the line. It is modelled by the tag part of `BoardState.GetWinner`, which is the same scan.
- TicTacToe.TicTacToeGame.Minimax and TestGame.TicTacToeGame.Minimax: each `minimax` method is split into the method itself (the terminal test) and one method per branch (`MaximizingPly`, `MinimizingPly`). `ai`'s loop body is the method `TryMove`. The loops, writes, undos and cutoffs are those of the source.
- Some functions define a value and carry no contracts of their own; their properties are proved in lemmas and in the class methods proved equal to them:
  - Search.Minimax, Search.ScanRows, Search.ScanCols: in `MinimaxTerminal`, `MinimaxBounded`, `ScanRowsBounded`, `ScanColsBounded`, `ScanTrialBounded` and the `Minimax`/`MaximizingPly`/`MinimizingPly` methods of both classes.
  - Search.Terminal: in `MinimaxTerminal` and `TerminalBounds`.
  - Search.TrialScore: in `ScanTrialBounded`, `AiScore` and both `TryMove` methods.
  - Search.PickRows, Search.PickCols, Search.AiChoice: in `AiChoiceIsBest`, `AiChoiceUnique`, the `Pick...Best` lemmas and both `Ai` methods.
  - BoardState.CountOpen, BoardState.HeuristicValue: in `CountOpenDisjoint`, `HeuristicBounds`, `CountOpenOfBlank`, `HeuristicOfBlankBoard` and `HeuristicEvaluation`.
  - BoardState.LabelSet, BoardState.IsWin: in `IsWinIff`, `FirstWin`, `FirstWinIsWinner` and `WinTestsAgree`.
  - BoardState.TurnAfter: in `DefaultPlayersAlternate`, the classes' `Valid` (turn == TurnAfter of the toggle count), `TogglePlayer` and `CurrentPlayerAlternates`.
