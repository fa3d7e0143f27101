/**
 * TicTacToeGame of tictactoe.py: the game with the depth-limited search
 * whose cut-off positions are scored by heuristic_evaluation.
 */
module TicTacToe {
  import opened Wrappers
  import opened BoardState
  import opened Search

  class TicTacToeGame {
    /** board_size */
    const size: nat
    /** The labels of the players tuple that the turn cycles through. */
    const players: seq<Label>
    /** The position of current_player in players: the state of itertools.cycle. */
    var turn: nat
    /** How many times toggle_player has run: the number of next() calls on the cycle after the first. */
    ghost var toggles: nat
    var currentPlayer: Label
    var winnerCombo: Line
    /** _current_moves */
    var moves: Board
    var hasWinner: bool
    /** _winning_combos, computed once by the constructor */
    const winningCombos: seq<Line>

    ghost predicate Valid()
      reads this
    {
      && |players| > 0 && turn < |players| && currentPlayer == players[turn]
      && turn == TurnAfter(|players|, toggles)
      && WellFormed(moves, size)
      && LinesWithin(winningCombos, size)
    }

    /** __init__ with _setup_board: an empty board, its lines, the first player's turn. */
    constructor (players: seq<Label> := DefaultPlayers, boardSize: nat := BoardSize)
      requires |players| > 0
      ensures Valid()
      ensures this.players == players && size == boardSize
      ensures turn == 0 && toggles == 0 && currentPlayer == players[0]
      ensures moves == EmptyBoard(boardSize) && winningCombos == Lines(boardSize)
      ensures !hasWinner && winnerCombo == []
    {
      this.players := players;
      size := boardSize;
      var board := EmptyBoard(boardSize);
      winningCombos := WinningCombos(board);
      new;
      turn := 0;
      toggles := 0;
      currentPlayer := players[0];
      winnerCombo := [];
      hasWinner := false;
      moves := board;
      LinesWithinBoard(boardSize);
    }

    /** A move is valid when nobody has won and its cell is unplayed; its label is not looked at. */
    function IsValidMove(move: Move): (ok: bool)
      requires Valid() && 0 <= move.row < size && 0 <= move.col < size
      reads this
      ensures ok <==> !hasWinner && At(moves, (move.row, move.col)) == Label.Empty
    {
      var moveWasNotPlayed := moves[move.row][move.col].mark == Label.Empty;
      var noWinner := !hasWinner;
      noWinner && moveWasNotPlayed
    }

    function HasWinner(): (r: bool)
      reads this
      ensures r <==> hasWinner
    {
      hasWinner
    }

    /** next(self._players): the turn moves one place along the player tuple, wrapping around. */
    method TogglePlayer()
      requires Valid()
      modifies this`turn, this`toggles, this`currentPlayer
      ensures Valid()
      ensures turn == (old(turn) + 1) % |players| && currentPlayer == players[turn]
      ensures toggles == old(toggles) + 1
    {
      turn := (turn + 1) % |players|;
      currentPlayer := players[turn];
      toggles := toggles + 1;
    }

    /** With the default players, current_player is X after an even number of toggles and O after an odd one. */
    lemma CurrentPlayerAlternates()
      requires Valid() && players == DefaultPlayers
      ensures currentPlayer == if toggles % 2 == 0 then Label.X else Label.O
    {
      DefaultPlayersAlternate(toggles);
    }

    /** Every cell back to Move(row, col); the winner flag and line cleared; lines and turn kept. */
    method ResetGame()
      requires Valid()
      modifies this`moves, this`hasWinner, this`winnerCombo
      ensures Valid()
      ensures moves == EmptyBoard(size) && !hasWinner && winnerCombo == []
      ensures currentPlayer == old(currentPlayer) && turn == old(turn)
    {
      var row := 0;
      while row < size
        invariant 0 <= row <= size
        invariant WellFormed(moves, size)
        invariant forall r, c :: 0 <= r < row && 0 <= c < size ==> moves[r][c].mark == Label.Empty
      {
        var col := 0;
        while col < size
          invariant 0 <= col <= size
          invariant WellFormed(moves, size)
          invariant forall r, c :: 0 <= r < row && 0 <= c < size ==> moves[r][c].mark == Label.Empty
          invariant forall c :: 0 <= c < col ==> moves[row][c].mark == Label.Empty
        {
          moves := Place(moves, row, col, Label.Empty);
          col := col + 1;
        }
        row := row + 1;
      }
      hasWinner := false;
      winnerCombo := [];
      BlankIsEmptyBoard(moves, size);
    }

    /** heuristic_evaluation: lines open for "O" minus lines open for "X". */
    method HeuristicEvaluation() returns (score: int)
      requires Valid()
      ensures score == HeuristicValue(moves, winningCombos)
    {
      LinesWithinOn(moves, winningCombos, size);
      var playerScore, opponentScore := 0, 0;
      var i := 0;
      while i < |winningCombos|
        invariant 0 <= i <= |winningCombos|
        invariant playerScore == CountOpen(moves, winningCombos[..i], Label.O, Label.X)
        invariant opponentScore == CountOpen(moves, winningCombos[..i], Label.X, Label.O)
      {
        var combo := winningCombos[i];
        var playerInCombo := Holds(moves, combo, Label.O);
        var opponentInCombo := Holds(moves, combo, Label.X);
        if playerInCombo && !opponentInCombo {
          playerScore := playerScore + 1;
        } else if opponentInCombo && !playerInCombo {
          opponentScore := opponentScore + 1;
        }
        assert winningCombos[..i + 1][..i] == winningCombos[..i];
        i := i + 1;
      }
      assert winningCombos[..i] == winningCombos;
      score := playerScore - opponentScore;
    }

    /**
     * minimax: the value of the position for "O". A won, tied or depth-limited
     * position is scored at once; otherwise the search goes on in the ply of
     * the player to move.
     */
    method Minimax(isMaximizing: bool, alpha: int, beta: int, maxDepth: int, depth: nat := 0) returns (score: int)
      requires Valid() && depth <= maxDepth
      modifies this`moves
      ensures moves == old(moves)
      ensures score == Search.Minimax(DepthLimited(maxDepth), old(moves), winningCombos, isMaximizing, alpha, beta, depth)
      decreases EmptyCount(moves), 1
    {
      LinesWithinOn(moves, winningCombos, size);
      var winner := GetWinner(moves, winningCombos).0;
      if maxDepth == depth || winner != Winner.None {
        // The source's test for "O" here never succeeds: get_winner reports an O line as "Y".
        if winner == Winner.X {
          return -10 + depth;
        } else if winner == Winner.TIE {
          return 0;
        } else {
          score := HeuristicEvaluation();
          return;
        }
      }
      if isMaximizing {
        score := MaximizingPly(alpha, beta, maxDepth, depth);
      } else {
        score := MinimizingPly(alpha, beta, maxDepth, depth);
      }
    }

    /**
     * The maximizing branch of minimax: "O" tried in each empty cell in row-major
     * order; alpha rises with best_score and a cutoff ends the current row only.
     */
    method MaximizingPly(alpha0: int, beta0: int, maxDepth: int, depth: nat) returns (bestScore: int)
      requires Valid() && depth < maxDepth
      modifies this`moves
      ensures moves == old(moves)
      ensures bestScore == ScanRows(DepthLimited(maxDepth), old(moves), winningCombos, true,
                                    Scan(-Infinity(size, winningCombos), alpha0, beta0), depth, 0).best
      decreases EmptyCount(moves), 0
    {
      LinesWithinOn(moves, winningCombos, size);
      ghost var b0 := moves;
      ghost var v := DepthLimited(maxDepth);
      var alpha, beta := alpha0, beta0;
      bestScore := -Infinity(size, winningCombos);
      var row := 0;
      while row < size
        invariant 0 <= row <= size && moves == b0
        invariant ScanRows(v, b0, winningCombos, true, Scan(bestScore, alpha, beta), depth, row)
               == ScanRows(v, b0, winningCombos, true, Scan(-Infinity(size, winningCombos), alpha0, beta0), depth, 0)
      {
        ScanRowsNext(v, b0, winningCombos, true, Scan(bestScore, alpha, beta), depth, row);
        ghost var rowEnd := ScanCols(v, b0, winningCombos, true, Scan(bestScore, alpha, beta), depth, row, 0);
        var col := 0;
        while col < size
          invariant 0 <= col <= size && moves == b0
          invariant ScanCols(v, b0, winningCombos, true, Scan(bestScore, alpha, beta), depth, row, col) == rowEnd
        {
          if moves[row][col].mark == Label.Empty {
            ScanColsTrial(v, b0, winningCombos, true, Scan(bestScore, alpha, beta), depth, row, col);
            EmptyCountPlace(moves, row, col, Label.O);
            moves := Place(moves, row, col, Label.O);
            var score := Minimax(false, alpha, beta, maxDepth, depth + 1);
            UndoRestores(b0, row, col, Label.O);
            moves := Place(moves, row, col, Label.Empty);
            bestScore := Max(bestScore, score);
            alpha := Max(alpha, bestScore);
            if beta <= alpha {
              break;
            }
          } else {
            ScanColsSkip(v, b0, winningCombos, true, Scan(bestScore, alpha, beta), depth, row, col);
          }
          col := col + 1;
        }
        row := row + 1;
      }
    }

    /**
     * The minimizing branch of minimax: "X" tried in each empty cell in row-major
     * order; beta falls with best_score and a cutoff ends the current row only.
     */
    method MinimizingPly(alpha0: int, beta0: int, maxDepth: int, depth: nat) returns (bestScore: int)
      requires Valid() && depth < maxDepth
      modifies this`moves
      ensures moves == old(moves)
      ensures bestScore == ScanRows(DepthLimited(maxDepth), old(moves), winningCombos, false,
                                    Scan(Infinity(size, winningCombos), alpha0, beta0), depth, 0).best
      decreases EmptyCount(moves), 0
    {
      LinesWithinOn(moves, winningCombos, size);
      ghost var b0 := moves;
      ghost var v := DepthLimited(maxDepth);
      var alpha, beta := alpha0, beta0;
      bestScore := Infinity(size, winningCombos);
      var row := 0;
      while row < size
        invariant 0 <= row <= size && moves == b0
        invariant ScanRows(v, b0, winningCombos, false, Scan(bestScore, alpha, beta), depth, row)
               == ScanRows(v, b0, winningCombos, false, Scan(Infinity(size, winningCombos), alpha0, beta0), depth, 0)
      {
        ScanRowsNext(v, b0, winningCombos, false, Scan(bestScore, alpha, beta), depth, row);
        ghost var rowEnd := ScanCols(v, b0, winningCombos, false, Scan(bestScore, alpha, beta), depth, row, 0);
        var col := 0;
        while col < size
          invariant 0 <= col <= size && moves == b0
          invariant ScanCols(v, b0, winningCombos, false, Scan(bestScore, alpha, beta), depth, row, col) == rowEnd
        {
          if moves[row][col].mark == Label.Empty {
            ScanColsTrial(v, b0, winningCombos, false, Scan(bestScore, alpha, beta), depth, row, col);
            EmptyCountPlace(moves, row, col, Label.X);
            moves := Place(moves, row, col, Label.X);
            var score := Minimax(true, alpha, beta, maxDepth, depth + 1);
            UndoRestores(b0, row, col, Label.X);
            moves := Place(moves, row, col, Label.Empty);
            bestScore := Min(bestScore, score);
            beta := Min(beta, bestScore);
            if beta <= alpha {
              break;
            }
          } else {
            ScanColsSkip(v, b0, winningCombos, false, Scan(bestScore, alpha, beta), depth, row, col);
          }
          col := col + 1;
        }
        row := row + 1;
      }
    }

    /**
     * The body of ai's inner loop on an empty cell: simulate "O" there, score
     * the position with minimax from the minimizing side, and undo the move.
     */
    method TryMove(row: int, col: int, maxDepth: int) returns (score: int)
      requires Valid() && 0 <= row < size && 0 <= col < size && moves[row][col].mark == Label.Empty
      requires 0 <= maxDepth
      modifies this`moves
      ensures moves == old(moves)
      ensures score == AiScore(DepthLimited(maxDepth), moves, winningCombos, row, col)
    {
      var inf := Infinity(size, winningCombos);
      ghost var b0 := moves;
      moves := Place(moves, row, col, Label.O);
      LinesWithinOn(moves, winningCombos, size);
      score := Minimax(false, -inf, inf, maxDepth);
      UndoRestores(b0, row, col, Label.O);
      moves := Place(moves, row, col, Label.Empty);
    }

    /**
     * ai: try "O" in every empty cell in row-major order, score it with a
     * search whose depth bound grows as the board fills, undo it, and keep
     * the first cell with the highest score.
     */
    method Ai(cellsLeft: int) returns (bestMove: Option<Cell>)
      requires Valid() && size > 0 && 0 <= cellsLeft <= size * size
      modifies this`moves
      ensures moves == old(moves)
      ensures bestMove == AiChoice(DepthLimited(SearchDepth(size, cellsLeft)), moves, winningCombos)
      ensures BestChoice(DepthLimited(SearchDepth(size, cellsLeft)), moves, winningCombos, bestMove)
    {
      LinesWithinOn(moves, winningCombos, size);
      var inf := Infinity(size, winningCombos);
      var bestScore := -inf;
      bestMove := Option.None;
      var maxCells := size * size;
      var maxDepth := 2 + (2 * (maxCells - cellsLeft)) / maxCells;
      assert maxDepth == SearchDepth(size, cellsLeft);
      ghost var b0 := moves;
      ghost var v := DepthLimited(maxDepth);
      var row := 0;
      while row < size
        invariant 0 <= row <= size && moves == b0
        invariant PickRows(v, b0, winningCombos, row, bestMove, bestScore) == AiChoice(v, b0, winningCombos)
      {
        var col := 0;
        while col < size
          invariant 0 <= col <= size && moves == b0
          invariant PickCols(v, b0, winningCombos, row, col, bestMove, bestScore) == AiChoice(v, b0, winningCombos)
        {
          if moves[row][col].mark == Label.Empty {
            var score := TryMove(row, col, maxDepth);
            if score > bestScore {
              bestScore := score;
              bestMove := Some((row, col));
            }
          }
          col := col + 1;
        }
        row := row + 1;
      }
      AiChoiceIsBest(v, b0, winningCombos);
    }
  }
}
