/**
 * TicTacToeGame of test.py: the game whose moves are committed by
 * process_move and whose search runs to the end of the game.
 */
module TestGame {
  import opened Wrappers
  import opened BoardState
  import opened Search

  class TicTacToeGame {
    /** board_size */
    const size: nat
    /** The labels of the players tuple that the turn cycles through. */
    const players: seq<Label>
    /** The position of current_player in players: the state of itertools.cycle. */
    var turn: nat
    /** How many times toggle_player has run: the number of next() calls on the cycle after the first. */
    ghost var toggles: nat
    var currentPlayer: Label
    var winnerCombo: Line
    /** _current_moves */
    var moves: Board
    var hasWinner: bool
    /** _winner: the label of the move that completed a line, "" before that */
    var winner: Label
    /** _winning_combos, computed once by the constructor */
    const winningCombos: seq<Line>

    ghost predicate Valid()
      reads this
    {
      && |players| > 0 && turn < |players| && currentPlayer == players[turn]
      && turn == TurnAfter(|players|, toggles)
      && WellFormed(moves, size)
      && LinesWithin(winningCombos, size)
    }

    /** __init__ with _setup_board: an empty board, its lines, the first player's turn, no winner. */
    constructor (players: seq<Label> := DefaultPlayers, boardSize: nat := BoardSize)
      requires |players| > 0
      ensures Valid()
      ensures this.players == players && size == boardSize
      ensures turn == 0 && toggles == 0 && currentPlayer == players[0]
      ensures moves == EmptyBoard(boardSize) && winningCombos == Lines(boardSize)
      ensures !hasWinner && winnerCombo == [] && winner == Label.Empty
    {
      this.players := players;
      size := boardSize;
      var board := EmptyBoard(boardSize);
      winningCombos := WinningCombos(board);
      new;
      turn := 0;
      toggles := 0;
      currentPlayer := players[0];
      winnerCombo := [];
      moves := board;
      hasWinner := false;
      winner := Label.Empty;
      LinesWithinBoard(boardSize);
    }

    /** A move is valid when nobody has won and its cell is unplayed; its label is not looked at. */
    function IsValidMove(move: Move): (ok: bool)
      requires Valid() && 0 <= move.row < size && 0 <= move.col < size
      reads this
      ensures ok <==> !hasWinner && At(moves, (move.row, move.col)) == Label.Empty
    {
      var moveWasNotPlayed := moves[move.row][move.col].mark == Label.Empty;
      var noWinner := !hasWinner;
      noWinner && moveWasNotPlayed
    }

    /**
     * process_move: store the move in its cell, then scan the lines in order;
     * the first line holding a single label other than "" sets the winner
     * flag, the winning line and the winner (the mover's label). With no such
     * line the three are left as they were.
     */
    method ProcessMove(move: Move)
      requires Valid() && 0 <= move.row < size && 0 <= move.col < size
      modifies this`moves, this`hasWinner, this`winnerCombo, this`winner
      ensures Valid()
      ensures moves == Place(old(moves), move.row, move.col, move.mark) && moves[move.row][move.col] == move
      ensures FirstWin(moves, winningCombos, 0) < |winningCombos| ==>
                hasWinner && winnerCombo == winningCombos[FirstWin(moves, winningCombos, 0)] && winner == move.mark
      ensures FirstWin(moves, winningCombos, 0) == |winningCombos| ==>
                hasWinner == old(hasWinner) && winnerCombo == old(winnerCombo) && winner == old(winner)
    {
      var row, col, player := move.row, move.col, move.mark;
      moves := Place(moves, row, col, player);
      LinesWithinOn(moves, winningCombos, size);
      var i := 0;
      while i < |winningCombos|
        invariant 0 <= i <= |winningCombos|
        invariant FirstWin(moves, winningCombos, i) == FirstWin(moves, winningCombos, 0)
        invariant hasWinner == old(hasWinner) && winnerCombo == old(winnerCombo) && winner == old(winner)
      {
        var combo := winningCombos[i];
        var isWin := IsWin(moves, combo);
        if isWin {
          hasWinner := true;
          winnerCombo := combo;
          winner := player;
          break;
        }
        i := i + 1;
      }
    }

    /**
     * getWinner: store the move in its cell, then report the mover's label
     * if some line holds a single label other than "", and None otherwise.
     * The winner flag, line and label are not touched.
     */
    method GetWinnerOfMove(move: Move) returns (result: Option<Label>)
      requires Valid() && 0 <= move.row < size && 0 <= move.col < size
      modifies this`moves
      ensures Valid()
      ensures moves == Place(old(moves), move.row, move.col, move.mark)
      ensures result.Some? <==> exists k :: 0 <= k < |winningCombos| && IsWin(moves, winningCombos[k])
      ensures result.Some? ==> result.value == move.mark
    {
      var row, col, player := move.row, move.col, move.mark;
      moves := Place(moves, row, col, player);
      LinesWithinOn(moves, winningCombos, size);
      var i := 0;
      while i < |winningCombos|
        invariant 0 <= i <= |winningCombos|
        invariant forall k :: 0 <= k < i ==> !IsWin(moves, winningCombos[k])
      {
        var combo := winningCombos[i];
        var isWin := IsWin(moves, combo);
        if isWin {
          return Some(player);
        }
        i := i + 1;
      }
      return Option.None;
    }

    function HasWinner(): (r: bool)
      reads this
      ensures r <==> hasWinner
    {
      hasWinner
    }

    /** is_tied: no winner has been recorded and every cell is labelled, i.e. no empty cell is left. */
    function IsTied(): (tied: bool)
      requires Valid()
      reads this
      ensures tied <==> !hasWinner && EmptyCount(moves) == 0
    {
      EmptyCountBound(moves, size);
      var noWinner := !hasWinner;
      noWinner && Full(moves)
    }

    /** next(self._players): the turn moves one place along the player tuple, wrapping around. */
    method TogglePlayer()
      requires Valid()
      modifies this`turn, this`toggles, this`currentPlayer
      ensures Valid()
      ensures turn == (old(turn) + 1) % |players| && currentPlayer == players[turn]
      ensures toggles == old(toggles) + 1
    {
      turn := (turn + 1) % |players|;
      currentPlayer := players[turn];
      toggles := toggles + 1;
    }

    /** With the default players, current_player is X after an even number of toggles and O after an odd one. */
    lemma CurrentPlayerAlternates()
      requires Valid() && players == DefaultPlayers
      ensures currentPlayer == if toggles % 2 == 0 then Label.X else Label.O
    {
      DefaultPlayersAlternate(toggles);
    }

    /**
     * Every cell back to Move(row, col); the winner flag and line cleared;
     * _winner, the lines and the turn kept.
     */
    method ResetGame()
      requires Valid()
      modifies this`moves, this`hasWinner, this`winnerCombo
      ensures Valid()
      ensures moves == EmptyBoard(size) && !hasWinner && winnerCombo == []
      ensures currentPlayer == old(currentPlayer) && turn == old(turn) && winner == old(winner)
    {
      var row := 0;
      while row < size
        invariant 0 <= row <= size
        invariant WellFormed(moves, size)
        invariant forall r, c :: 0 <= r < row && 0 <= c < size ==> moves[r][c].mark == Label.Empty
      {
        var col := 0;
        while col < size
          invariant 0 <= col <= size
          invariant WellFormed(moves, size)
          invariant forall r, c :: 0 <= r < row && 0 <= c < size ==> moves[r][c].mark == Label.Empty
          invariant forall c :: 0 <= c < col ==> moves[row][c].mark == Label.Empty
        {
          moves := Place(moves, row, col, Label.Empty);
          col := col + 1;
        }
        row := row + 1;
      }
      hasWinner := false;
      winnerCombo := [];
      BlankIsEmptyBoard(moves, size);
    }

    /**
     * minimax without a depth bound: an X line scores -10 + depth, an O line
     * ("Y") 10 - depth, a tie 0; otherwise the search goes on in the ply of
     * the player to move.
     */
    method Minimax(isMaximizing: bool, alpha: int, beta: int, depth: nat) returns (score: int)
      requires Valid()
      modifies this`moves
      ensures moves == old(moves)
      ensures score == Search.Minimax(Exhaustive, old(moves), winningCombos, isMaximizing, alpha, beta, depth)
      decreases EmptyCount(moves), 1
    {
      LinesWithinOn(moves, winningCombos, size);
      var winner := GetWinner(moves, winningCombos).0;
      if winner == Winner.X {
        return -10 + depth;
      } else if winner == Winner.Y {
        return 10 - depth;
      } else if winner == Winner.TIE {
        return 0;
      }
      if isMaximizing {
        score := MaximizingPly(alpha, beta, depth);
      } else {
        score := MinimizingPly(alpha, beta, depth);
      }
    }

    /**
     * The maximizing branch of minimax: "O" tried in each empty cell in row-major
     * order; alpha rises with best_score and a cutoff ends the current row only.
     */
    method MaximizingPly(alpha0: int, beta0: int, depth: nat) returns (bestScore: int)
      requires Valid()
      modifies this`moves
      ensures moves == old(moves)
      ensures bestScore == ScanRows(Exhaustive, old(moves), winningCombos, true,
                                    Scan(-Infinity(size, winningCombos), alpha0, beta0), depth, 0).best
      decreases EmptyCount(moves), 0
    {
      LinesWithinOn(moves, winningCombos, size);
      ghost var b0 := moves;
      var alpha, beta := alpha0, beta0;
      bestScore := -Infinity(size, winningCombos);
      var row := 0;
      while row < size
        invariant 0 <= row <= size && moves == b0
        invariant ScanRows(Exhaustive, b0, winningCombos, true, Scan(bestScore, alpha, beta), depth, row)
               == ScanRows(Exhaustive, b0, winningCombos, true, Scan(-Infinity(size, winningCombos), alpha0, beta0), depth, 0)
      {
        ScanRowsNext(Exhaustive, b0, winningCombos, true, Scan(bestScore, alpha, beta), depth, row);
        ghost var rowEnd := ScanCols(Exhaustive, b0, winningCombos, true, Scan(bestScore, alpha, beta), depth, row, 0);
        var col := 0;
        while col < size
          invariant 0 <= col <= size && moves == b0
          invariant ScanCols(Exhaustive, b0, winningCombos, true, Scan(bestScore, alpha, beta), depth, row, col) == rowEnd
        {
          if moves[row][col].mark == Label.Empty {
            ScanColsTrial(Exhaustive, b0, winningCombos, true, Scan(bestScore, alpha, beta), depth, row, col);
            EmptyCountPlace(moves, row, col, Label.O);
            moves := Place(moves, row, col, Label.O);
            var score := Minimax(false, alpha, beta, depth + 1);
            UndoRestores(b0, row, col, Label.O);
            moves := Place(moves, row, col, Label.Empty);
            bestScore := Max(bestScore, score);
            alpha := Max(alpha, bestScore);
            if beta <= alpha {
              break;
            }
          } else {
            ScanColsSkip(Exhaustive, b0, winningCombos, true, Scan(bestScore, alpha, beta), depth, row, col);
          }
          col := col + 1;
        }
        row := row + 1;
      }
    }

    /**
     * The minimizing branch of minimax: "X" tried in each empty cell in row-major
     * order; beta falls with best_score and a cutoff ends the current row only.
     */
    method MinimizingPly(alpha0: int, beta0: int, depth: nat) returns (bestScore: int)
      requires Valid()
      modifies this`moves
      ensures moves == old(moves)
      ensures bestScore == ScanRows(Exhaustive, old(moves), winningCombos, false,
                                    Scan(Infinity(size, winningCombos), alpha0, beta0), depth, 0).best
      decreases EmptyCount(moves), 0
    {
      LinesWithinOn(moves, winningCombos, size);
      ghost var b0 := moves;
      var alpha, beta := alpha0, beta0;
      bestScore := Infinity(size, winningCombos);
      var row := 0;
      while row < size
        invariant 0 <= row <= size && moves == b0
        invariant ScanRows(Exhaustive, b0, winningCombos, false, Scan(bestScore, alpha, beta), depth, row)
               == ScanRows(Exhaustive, b0, winningCombos, false, Scan(Infinity(size, winningCombos), alpha0, beta0), depth, 0)
      {
        ScanRowsNext(Exhaustive, b0, winningCombos, false, Scan(bestScore, alpha, beta), depth, row);
        ghost var rowEnd := ScanCols(Exhaustive, b0, winningCombos, false, Scan(bestScore, alpha, beta), depth, row, 0);
        var col := 0;
        while col < size
          invariant 0 <= col <= size && moves == b0
          invariant ScanCols(Exhaustive, b0, winningCombos, false, Scan(bestScore, alpha, beta), depth, row, col) == rowEnd
        {
          if moves[row][col].mark == Label.Empty {
            ScanColsTrial(Exhaustive, b0, winningCombos, false, Scan(bestScore, alpha, beta), depth, row, col);
            EmptyCountPlace(moves, row, col, Label.X);
            moves := Place(moves, row, col, Label.X);
            var score := Minimax(true, alpha, beta, depth + 1);
            UndoRestores(b0, row, col, Label.X);
            moves := Place(moves, row, col, Label.Empty);
            bestScore := Min(bestScore, score);
            beta := Min(beta, bestScore);
            if beta <= alpha {
              break;
            }
          } else {
            ScanColsSkip(Exhaustive, b0, winningCombos, false, Scan(bestScore, alpha, beta), depth, row, col);
          }
          col := col + 1;
        }
        row := row + 1;
      }
    }

    /**
     * The body of ai's inner loop on an empty cell: simulate "O" there, score
     * the position with minimax from the minimizing side, and undo the move.
     */
    method TryMove(row: int, col: int) returns (score: int)
      requires Valid() && 0 <= row < size && 0 <= col < size && moves[row][col].mark == Label.Empty
      modifies this`moves
      ensures moves == old(moves)
      ensures score == AiScore(Exhaustive, moves, winningCombos, row, col)
    {
      var inf := Infinity(size, winningCombos);
      ghost var b0 := moves;
      moves := Place(moves, row, col, Label.O);
      LinesWithinOn(moves, winningCombos, size);
      score := Minimax(false, -inf, inf, 0);
      UndoRestores(b0, row, col, Label.O);
      moves := Place(moves, row, col, Label.Empty);
    }

    /**
     * ai: try "O" in every empty cell in row-major order, score it with the
     * full search, undo it, and keep the first cell with the highest score.
     */
    method Ai() returns (bestMove: Option<Cell>)
      requires Valid()
      modifies this`moves
      ensures moves == old(moves)
      ensures bestMove == AiChoice(Exhaustive, moves, winningCombos)
      ensures BestChoice(Exhaustive, moves, winningCombos, bestMove)
    {
      LinesWithinOn(moves, winningCombos, size);
      var inf := Infinity(size, winningCombos);
      var bestScore := -inf;
      bestMove := Option.None;
      ghost var b0 := moves;
      var row := 0;
      while row < size
        invariant 0 <= row <= size && moves == b0
        invariant PickRows(Exhaustive, b0, winningCombos, row, bestMove, bestScore) == AiChoice(Exhaustive, b0, winningCombos)
      {
        var col := 0;
        while col < size
          invariant 0 <= col <= size && moves == b0
          invariant PickCols(Exhaustive, b0, winningCombos, row, col, bestMove, bestScore) == AiChoice(Exhaustive, b0, winningCombos)
        {
          if moves[row][col].mark == Label.Empty {
            var score := TryMove(row, col);
            if score > bestScore {
              bestScore := score;
              bestMove := Some((row, col));
            }
          }
          col := col + 1;
        }
        row := row + 1;
      }
      AiChoiceIsBest(Exhaustive, b0, winningCombos);
    }
  }
}
