/**
 * The value the two minimax methods compute, as functions over a board value.
 * The row and column loops of minimax become ScanRows and ScanCols; a cutoff
 * (`beta <= alpha`) ends only the column scan of the current row, and the
 * scan of the next row starts from the cut-off state.
 */
module Search {
  import opened Wrappers
  import opened BoardState

  /** tictactoe.py's minimax (cut off at max_depth, heuristic fallback) or test.py's (exhaustive). */
  datatype Variant = DepthLimited(maxDepth: int) | Exhaustive

  /** What the loops of minimax carry from cell to cell: best_score, alpha and beta. */
  datatype Scan = Scan(best: int, alpha: int, beta: int)

  /**
   * One trial's effect on the scan: best_score takes the trial's score if it is
   * better, then alpha (maximizing) or beta (minimizing) follows best_score.
   */
  function Advance(isMax: bool, s: Scan, score: int): (r: Scan)
    ensures isMax ==> r.best >= s.best && r.best >= score && (r.best == s.best || r.best == score)
    ensures isMax ==> r.alpha >= s.alpha && r.alpha >= r.best && (r.alpha == s.alpha || r.alpha == r.best) && r.beta == s.beta
    ensures !isMax ==> r.best <= s.best && r.best <= score && (r.best == s.best || r.best == score)
    ensures !isMax ==> r.beta <= s.beta && r.beta <= r.best && (r.beta == s.beta || r.beta == r.best) && r.alpha == s.alpha
  {
    if isMax then
      var best := Max(s.best, score);
      Scan(best, Max(s.alpha, best), s.beta)
    else
      var best := Min(s.best, score);
      Scan(best, s.alpha, Min(s.beta, best))
  }

  function Max(a: int, b: int): int { if a >= b then a else b }

  function Min(a: int, b: int): int { if a <= b then a else b }

  /** The stand-in for float("inf"): above every score a search on this board can produce. */
  function Infinity(n: nat, lines: seq<Line>): int
  {
    11 + n * n + |lines|
  }

  /** A bound on the scores; depth + EmptyCount(b) stays the same down the recursion. */
  function ScoreBound(b: Board, lines: seq<Line>, depth: nat): int
  {
    10 + depth + EmptyCount(b) + |lines|
  }

  predicate Searchable(b: Board, lines: seq<Line>)
  {
    WellFormed(b, |b|) && LinesOn(b, lines)
  }

  /** The label a ply places: the AI's "O" on a maximizing ply, the opponent's "X" otherwise. */
  function PlyLabel(isMax: bool): Label
  {
    if isMax then Label.O else Label.X
  }

  /**
   * The terminal test at the top of minimax. tictactoe.py also compares the
   * winner with "O", which get_winner never reports, so a line of O's there
   * falls through to the heuristic.
   */
  function Terminal(v: Variant, b: Board, lines: seq<Line>, depth: nat): (r: Option<int>)
    requires Searchable(b, lines)
  {
    var winner := GetWinner(b, lines).0;
    match v
    case DepthLimited(maxDepth) =>
      if maxDepth == depth || winner != Winner.None then
        Some(if winner == Winner.X then -10 + depth
             else if winner == Winner.TIE then 0
             else HeuristicValue(b, lines))
      else Option.None
    case Exhaustive =>
      if winner == Winner.X then Some(-10 + depth)
      else if winner == Winner.Y then Some(10 - depth)
      else if winner == Winner.TIE then Some(0)
      else Option.None
  }

  /**
   * minimax: the terminal score, or else the best score of a scan over the
   * empty cells, starting from -inf (maximizing) or +inf (minimizing).
   */
  function Minimax(v: Variant, b: Board, lines: seq<Line>, isMax: bool, alpha: int, beta: int, depth: nat): int
    requires Searchable(b, lines)
    requires v.DepthLimited? ==> depth <= v.maxDepth
    decreases EmptyCount(b), 2
  {
    match Terminal(v, b, lines, depth)
    case Some(score) => score
    case None =>
      var inf := Infinity(|b|, lines);
      ScanRows(v, b, lines, isMax, Scan(if isMax then -inf else inf, alpha, beta), depth, 0).best
  }

  /**
   * The terminal cases of minimax: an X line scores -10 + depth and a tie 0;
   * an O line ("Y") scores 10 - depth in test.py but the heuristic in
   * tictactoe.py, as does a position reached at max_depth.
   */
  lemma MinimaxTerminal(v: Variant, b: Board, lines: seq<Line>, isMax: bool, alpha: int, beta: int, depth: nat)
    requires Searchable(b, lines)
    requires v.DepthLimited? ==> depth <= v.maxDepth
    ensures GetWinner(b, lines).0 == Winner.X ==> Minimax(v, b, lines, isMax, alpha, beta, depth) == -10 + depth
    ensures GetWinner(b, lines).0 == Winner.TIE ==> Minimax(v, b, lines, isMax, alpha, beta, depth) == 0
    ensures GetWinner(b, lines).0 == Winner.Y ==>
              Minimax(v, b, lines, isMax, alpha, beta, depth) == if v.Exhaustive? then 10 - depth else HeuristicValue(b, lines)
    ensures v.DepthLimited? && depth == v.maxDepth ==>
              Minimax(v, b, lines, isMax, alpha, beta, depth) ==
                if GetWinner(b, lines).0 == Winner.X then -10 + depth
                else if GetWinner(b, lines).0 == Winner.TIE then 0
                else HeuristicValue(b, lines)
  {
  }

  /** The outer `for row` loop of minimax, from `row` on. */
  function ScanRows(v: Variant, b: Board, lines: seq<Line>, isMax: bool, s: Scan, depth: nat, row: nat): Scan
    requires Searchable(b, lines) && row <= |b|
    requires v.DepthLimited? ==> depth < v.maxDepth
    decreases EmptyCount(b), 1, |b| - row, 1
  {
    if row == |b| then s
    else ScanRows(v, b, lines, isMax, ScanCols(v, b, lines, isMax, s, depth, row, 0), depth, row + 1)
  }

  /** The inner `for col` loop of row `row`, from `col` on; a cutoff returns at once. */
  function ScanCols(v: Variant, b: Board, lines: seq<Line>, isMax: bool, s: Scan, depth: nat, row: nat, col: nat): Scan
    requires Searchable(b, lines) && row < |b| && col <= |b|
    requires v.DepthLimited? ==> depth < v.maxDepth
    decreases EmptyCount(b), 1, |b| - row, 0, |b| - col
  {
    if col == |b| then s
    else if b[row][col].mark != Label.Empty then ScanCols(v, b, lines, isMax, s, depth, row, col + 1)
    else
      var score := TrialScore(v, b, lines, row, col, PlyLabel(isMax), !isMax, s.alpha, s.beta, depth + 1);
      var next := Advance(isMax, s, score);
      if next.beta <= next.alpha then next
      else ScanCols(v, b, lines, isMax, next, depth, row, col + 1)
  }

  /** The inner loop's body on an empty cell: one trial, then the cutoff test. */
  lemma ScanColsTrial(v: Variant, b: Board, lines: seq<Line>, isMax: bool, s: Scan, depth: nat, row: nat, col: nat)
    requires Searchable(b, lines) && row < |b| && col < |b| && b[row][col].mark == Label.Empty
    requires v.DepthLimited? ==> depth < v.maxDepth
    ensures Searchable(Place(b, row, col, PlyLabel(isMax)), lines)
    ensures
      var next := Advance(isMax, s, TrialScore(v, b, lines, row, col, PlyLabel(isMax), !isMax, s.alpha, s.beta, depth + 1));
      ScanCols(v, b, lines, isMax, s, depth, row, col)
        == if next.beta <= next.alpha then next else ScanCols(v, b, lines, isMax, next, depth, row, col + 1)
  {
    LinesOnPlace(b, lines, row, col, PlyLabel(isMax));
  }

  /** The outer loop's body: the scan of row `row`, then the rows after it. */
  lemma ScanRowsNext(v: Variant, b: Board, lines: seq<Line>, isMax: bool, s: Scan, depth: nat, row: nat)
    requires Searchable(b, lines) && row < |b|
    requires v.DepthLimited? ==> depth < v.maxDepth
    ensures ScanRows(v, b, lines, isMax, s, depth, row) == ScanRows(v, b, lines, isMax, ScanCols(v, b, lines, isMax, s, depth, row, 0), depth, row + 1)
  {
  }

  /** The inner loop's body on a played cell: nothing changes. */
  lemma ScanColsSkip(v: Variant, b: Board, lines: seq<Line>, isMax: bool, s: Scan, depth: nat, row: nat, col: nat)
    requires Searchable(b, lines) && row < |b| && col < |b| && b[row][col].mark != Label.Empty
    requires v.DepthLimited? ==> depth < v.maxDepth
    ensures ScanCols(v, b, lines, isMax, s, depth, row, col) == ScanCols(v, b, lines, isMax, s, depth, row, col + 1)
  {
  }

  /**
   * The score of one trial: label l simulated at the empty cell (row, col),
   * then minimax with the other side to move, at the next depth.
   */
  function TrialScore(v: Variant, b: Board, lines: seq<Line>, row: nat, col: nat, l: Label,
                      isMax: bool, alpha: int, beta: int, depth: nat): int
    requires Searchable(b, lines) && row < |b| && col < |b| && b[row][col].mark == Label.Empty && l != Label.Empty
    requires v.DepthLimited? ==> depth <= v.maxDepth
    decreases EmptyCount(b), 0
  {
    EmptyCountPlace(b, row, col, l);
    LinesOnPlace(b, lines, row, col, l);
    Minimax(v, Place(b, row, col, l), lines, isMax, alpha, beta, depth)
  }

  // ---------------------------------------------------------------- score bounds

  /** A score within ScoreBound of the position. */
  predicate InBound(x: int, b: Board, lines: seq<Line>, depth: nat)
  {
    -ScoreBound(b, lines, depth) <= x <= ScoreBound(b, lines, depth)
  }

  /** What best_score can hold during a scan: its starting infinity, or a score within the bound. */
  predicate Tracked(best: int, isMax: bool, b: Board, lines: seq<Line>, depth: nat)
  {
    best == (if isMax then -Infinity(|b|, lines) else Infinity(|b|, lines)) || InBound(best, b, lines, depth)
  }

  /**
   * The terminal test scores within 10 + depth + |lines| (the heuristic is
   * within |lines|), and declines to score only a board with an empty cell.
   */
  lemma TerminalBounds(v: Variant, b: Board, lines: seq<Line>, depth: nat)
    requires Searchable(b, lines)
    ensures Terminal(v, b, lines, depth).None? ==> !Full(b)
    ensures Terminal(v, b, lines, depth).Some? ==>
              -(10 + depth + |lines|) <= Terminal(v, b, lines, depth).value <= 10 + depth + |lines|
  {
    HeuristicBounds(b, lines);
  }

  /**
   * Every minimax score lies strictly between the infinities: a terminal
   * score is bounded, and a scan of a board with an empty cell returns the
   * score of some trial rather than its starting infinity.
   */
  lemma {:induction false} MinimaxBounded(v: Variant, b: Board, lines: seq<Line>, isMax: bool, alpha: int, beta: int, depth: nat)
    requires Searchable(b, lines)
    requires v.DepthLimited? ==> depth <= v.maxDepth
    requires depth + EmptyCount(b) <= |b| * |b|
    ensures InBound(Minimax(v, b, lines, isMax, alpha, beta, depth), b, lines, depth)
    decreases EmptyCount(b), 2
  {
    TerminalBounds(v, b, lines, depth);
    if Terminal(v, b, lines, depth).None? {
      var inf := Infinity(|b|, lines);
      var r, c :| 0 <= r < |b| && 0 <= c < |b[r]| && b[r][c].mark == Label.Empty;
      ScanRowsBounded(v, b, lines, isMax, Scan(if isMax then -inf else inf, alpha, beta), depth, 0);
    }
  }

  lemma {:induction false} ScanRowsBounded(v: Variant, b: Board, lines: seq<Line>, isMax: bool, s: Scan, depth: nat, row: nat)
    requires Searchable(b, lines) && row <= |b|
    requires v.DepthLimited? ==> depth < v.maxDepth
    requires depth + EmptyCount(b) <= |b| * |b|
    requires Tracked(s.best, isMax, b, lines, depth)
    ensures Tracked(ScanRows(v, b, lines, isMax, s, depth, row).best, isMax, b, lines, depth)
    ensures InBound(s.best, b, lines, depth) || (exists i, j :: row <= i < |b| && 0 <= j < |b| && b[i][j].mark == Label.Empty) ==>
              InBound(ScanRows(v, b, lines, isMax, s, depth, row).best, b, lines, depth)
    decreases EmptyCount(b), 1, |b| - row, 1
  {
    if row < |b| {
      ScanColsBounded(v, b, lines, isMax, s, depth, row, 0);
      var s' := ScanCols(v, b, lines, isMax, s, depth, row, 0);
      ScanRowsBounded(v, b, lines, isMax, s', depth, row + 1);
      if exists i, j :: row <= i < |b| && 0 <= j < |b| && b[i][j].mark == Label.Empty {
        var i, j :| row <= i < |b| && 0 <= j < |b| && b[i][j].mark == Label.Empty;
        if i == row {
          assert InBound(s'.best, b, lines, depth);
        }
      }
    }
  }

  lemma {:induction false} ScanColsBounded(v: Variant, b: Board, lines: seq<Line>, isMax: bool, s: Scan, depth: nat, row: nat, col: nat)
    requires Searchable(b, lines) && row < |b| && col <= |b|
    requires v.DepthLimited? ==> depth < v.maxDepth
    requires depth + EmptyCount(b) <= |b| * |b|
    requires Tracked(s.best, isMax, b, lines, depth)
    ensures Tracked(ScanCols(v, b, lines, isMax, s, depth, row, col).best, isMax, b, lines, depth)
    ensures InBound(s.best, b, lines, depth) || (exists j :: col <= j < |b| && b[row][j].mark == Label.Empty) ==>
              InBound(ScanCols(v, b, lines, isMax, s, depth, row, col).best, b, lines, depth)
    decreases EmptyCount(b), 1, |b| - row, 0, |b| - col, 1
  {
    if col < |b| {
      if b[row][col].mark != Label.Empty {
        ScanColsBounded(v, b, lines, isMax, s, depth, row, col + 1);
      } else {
        ScanTrialBounded(v, b, lines, isMax, s, depth, row, col);
      }
    }
  }

  lemma {:induction false} ScanTrialBounded(v: Variant, b: Board, lines: seq<Line>, isMax: bool, s: Scan, depth: nat, row: nat, col: nat)
    requires Searchable(b, lines) && row < |b| && col < |b| && b[row][col].mark == Label.Empty
    requires v.DepthLimited? ==> depth < v.maxDepth
    requires depth + EmptyCount(b) <= |b| * |b|
    requires Tracked(s.best, isMax, b, lines, depth)
    ensures InBound(ScanCols(v, b, lines, isMax, s, depth, row, col).best, b, lines, depth)
    decreases EmptyCount(b), 1, |b| - row, 0, |b| - col, 0
  {
    var l := PlyLabel(isMax);
    EmptyCountPlace(b, row, col, l);
    LinesOnPlace(b, lines, row, col, l);
    MinimaxBounded(v, Place(b, row, col, l), lines, !isMax, s.alpha, s.beta, depth + 1);
    var next := Advance(isMax, s, TrialScore(v, b, lines, row, col, l, !isMax, s.alpha, s.beta, depth + 1));
    assert InBound(next.best, b, lines, depth);
    if next.alpha < next.beta {
      ScanColsBounded(v, b, lines, isMax, next, depth, row, col + 1);
    }
  }

  // ---------------------------------------------------------------- ai

  /** The depth bound ai passes: 2 + int((max_cells - cells_left) / max_cells * 2). */
  function SearchDepth(n: nat, cellsLeft: int): (d: int)
    requires n > 0 && 0 <= cellsLeft <= n * n
    ensures 2 <= d <= 4
    ensures d == 2 <==> 2 * (n * n - cellsLeft) < n * n
    ensures d == 4 <==> cellsLeft == 0
  {
    var m := n * n;
    var filled := m - cellsLeft;
    assert 0 <= 2 * filled <= 2 * m;
    DivideByCells(2 * filled, m);
    2 + (2 * filled) / m
  }

  lemma DivideByCells(x: int, m: int)
    requires 0 < m && 0 <= x <= 2 * m
    ensures 0 <= x / m <= 2
    ensures x / m == 0 <==> x < m
    ensures x / m == 2 <==> x == 2 * m
  {
    if x < m {
      assert x / m == 0;
    } else if x < 2 * m {
      assert (x - m) / m == 0;
      assert x / m == (x - m) / m + 1;
    } else {
      assert x / m == 2;
    }
  }

  /** The score ai gives to playing "O" at (r, c). */
  function AiScore(v: Variant, b: Board, lines: seq<Line>, r: int, c: int): (score: int)
    requires Searchable(b, lines) && 0 <= r < |b| && 0 <= c < |b| && b[r][c].mark == Label.Empty
    requires v.DepthLimited? ==> 0 <= v.maxDepth
    ensures -Infinity(|b|, lines) < score < Infinity(|b|, lines)
  {
    var inf := Infinity(|b|, lines);
    EmptyCountPlace(b, r, c, Label.O);
    EmptyCountBound(b, |b|);
    LinesOnPlace(b, lines, r, c, Label.O);
    MinimaxBounded(v, Place(b, r, c, Label.O), lines, false, -inf, inf, 0);
    TrialScore(v, b, lines, r, c, Label.O, false, -inf, inf, 0)
  }

  /** Cell (r1, c1) comes before (r2, c2) in row-major order. */
  predicate Before(r1: int, c1: int, r2: int, c2: int)
  {
    r1 < r2 || (r1 == r2 && c1 < c2)
  }

  /** AiScore at every empty cell of the board, and 0 elsewhere. */
  function AiScores(v: Variant, b: Board, lines: seq<Line>): (score: (int, int) -> int)
    requires Searchable(b, lines)
    requires v.DepthLimited? ==> 0 <= v.maxDepth
    ensures forall r, c :: 0 <= r < |b| && 0 <= c < |b| && b[r][c].mark == Label.Empty ==>
              -Infinity(|b|, lines) < score(r, c) < Infinity(|b|, lines)
  {
    (r: int, c: int) =>
      if 0 <= r < |b| && 0 <= c < |b| && b[r][c].mark == Label.Empty then AiScore(v, b, lines, r, c) else 0
  }

  /**
   * The choice the loops of ai make under a given scoring: None exactly on a
   * full board; otherwise an empty cell with the maximal score, and the first
   * such in row-major order (a later cell must score strictly more to win).
   */
  ghost predicate BestBy(b: Board, score: (int, int) -> int, choice: Option<Cell>)
  {
    match choice
    case None => Full(b)
    case Some(p) =>
      && 0 <= p.0 < |b| && 0 <= p.1 < |b[p.0]| && b[p.0][p.1].mark == Label.Empty
      && (forall r, c :: 0 <= r < |b| && 0 <= c < |b[r]| && b[r][c].mark == Label.Empty ==> score(r, c) <= score(p.0, p.1))
      && (forall r, c :: 0 <= r < |b| && 0 <= c < |b[r]| && b[r][c].mark == Label.Empty && Before(r, c, p.0, p.1) ==>
            score(r, c) < score(p.0, p.1))
  }

  /** What ai returns: BestBy under the scores of its search. */
  ghost predicate BestChoice(v: Variant, b: Board, lines: seq<Line>, choice: Option<Cell>)
    requires Searchable(b, lines)
    requires v.DepthLimited? ==> 0 <= v.maxDepth
  {
    BestBy(b, AiScores(v, b, lines), choice)
  }

  /**
   * The state of ai's loops once every cell before (row, col) in row-major
   * order has been tried: best_move is BestBy restricted to those cells, and
   * best_score its score, or the floor it started from when none was empty.
   */
  ghost predicate ChoiceSoFar(b: Board, score: (int, int) -> int, floor: int, row: int, col: int, choice: Option<Cell>, bestScore: int)
  {
    match choice
    case None =>
      && bestScore == floor
      && forall r, c :: 0 <= r < |b| && 0 <= c < |b[r]| && Before(r, c, row, col) ==> b[r][c].mark != Label.Empty
    case Some(p) =>
      && 0 <= p.0 < |b| && 0 <= p.1 < |b[p.0]| && b[p.0][p.1].mark == Label.Empty && Before(p.0, p.1, row, col)
      && bestScore == score(p.0, p.1)
      && (forall r, c :: 0 <= r < |b| && 0 <= c < |b[r]| && b[r][c].mark == Label.Empty && Before(r, c, row, col) ==>
            score(r, c) <= bestScore)
      && (forall r, c :: 0 <= r < |b| && 0 <= c < |b[r]| && b[r][c].mark == Label.Empty && Before(r, c, p.0, p.1) ==>
            score(r, c) < bestScore)
  }

  /** The inner loop of ai on a played cell: nothing changes. */
  lemma ChoiceSoFarSkip(b: Board, score: (int, int) -> int, floor: int, row: int, col: int, choice: Option<Cell>, bestScore: int)
    requires 0 <= row < |b| && 0 <= col < |b[row]| && b[row][col].mark != Label.Empty
    requires ChoiceSoFar(b, score, floor, row, col, choice, bestScore)
    ensures ChoiceSoFar(b, score, floor, row, col + 1, choice, bestScore)
  {
  }

  /** The inner loop of ai on an empty cell that beats best_score: it becomes the choice. */
  lemma ChoiceSoFarTake(b: Board, score: (int, int) -> int, floor: int, row: int, col: int, choice: Option<Cell>, bestScore: int)
    requires 0 <= row < |b| && 0 <= col < |b[row]| && b[row][col].mark == Label.Empty
    requires score(row, col) > bestScore
    requires ChoiceSoFar(b, score, floor, row, col, choice, bestScore)
    ensures ChoiceSoFar(b, score, floor, row, col + 1, Some((row, col)), score(row, col))
  {
  }

  /** The inner loop of ai on an empty cell that does not beat best_score: nothing changes. */
  lemma ChoiceSoFarKeep(b: Board, score: (int, int) -> int, floor: int, row: int, col: int, choice: Option<Cell>, bestScore: int)
    requires 0 <= row < |b| && 0 <= col < |b[row]| && b[row][col].mark == Label.Empty
    requires floor < score(row, col) <= bestScore
    requires ChoiceSoFar(b, score, floor, row, col, choice, bestScore)
    ensures ChoiceSoFar(b, score, floor, row, col + 1, choice, bestScore)
  {
  }

  /** The end of a row is the start of the next. */
  lemma ChoiceSoFarNextRow(b: Board, score: (int, int) -> int, floor: int, row: int, choice: Option<Cell>, bestScore: int)
    requires 0 <= row < |b| && |b[row]| == |b|
    requires ChoiceSoFar(b, score, floor, row, |b|, choice, bestScore)
    ensures ChoiceSoFar(b, score, floor, row + 1, 0, choice, bestScore)
  {
  }

  /** Once every cell has been tried, the choice is the best one. */
  lemma ChoiceSoFarDone(b: Board, score: (int, int) -> int, floor: int, choice: Option<Cell>, bestScore: int)
    requires ChoiceSoFar(b, score, floor, |b|, 0, choice, bestScore)
    ensures BestBy(b, score, choice)
  {
  }

  /** The choice is determined: the tie-break makes ai deterministic. */
  lemma BestByUnique(b: Board, score: (int, int) -> int, c1: Option<Cell>, c2: Option<Cell>)
    requires BestBy(b, score, c1) && BestBy(b, score, c2)
    ensures c1 == c2
  {
    if c1.Some? && c2.Some? {
      var p, q := c1.value, c2.value;
      assert score(p.0, p.1) == score(q.0, q.1);
    }
  }

  /**
   * The cell ai's loops settle on, resuming the row-major scan at the start
   * of row `row` with `choice` and `bestScore` as best_move and best_score.
   */
  function PickRows(v: Variant, b: Board, lines: seq<Line>, row: nat, choice: Option<Cell>, bestScore: int): Option<Cell>
    requires Searchable(b, lines) && row <= |b|
    requires v.DepthLimited? ==> 0 <= v.maxDepth
    decreases |b| - row, 1
  {
    if row == |b| then choice else PickCols(v, b, lines, row, 0, choice, bestScore)
  }

  /** As PickRows, resuming at (row, col): a cell replaces the choice only on a strictly higher score. */
  function PickCols(v: Variant, b: Board, lines: seq<Line>, row: nat, col: nat, choice: Option<Cell>, bestScore: int): Option<Cell>
    requires Searchable(b, lines) && row < |b| && col <= |b|
    requires v.DepthLimited? ==> 0 <= v.maxDepth
    decreases |b| - row, 0, |b| - col
  {
    if col == |b| then PickRows(v, b, lines, row + 1, choice, bestScore)
    else if b[row][col].mark != Label.Empty then PickCols(v, b, lines, row, col + 1, choice, bestScore)
    else
      var score := AiScore(v, b, lines, row, col);
      if score > bestScore then PickCols(v, b, lines, row, col + 1, Some((row, col)), score)
      else PickCols(v, b, lines, row, col + 1, choice, bestScore)
  }

  /** The move ai returns, starting from best_score = -inf and no move. */
  function AiChoice(v: Variant, b: Board, lines: seq<Line>): Option<Cell>
    requires Searchable(b, lines)
    requires v.DepthLimited? ==> 0 <= v.maxDepth
  {
    PickRows(v, b, lines, 0, Option.None, -Infinity(|b|, lines))
  }

  /** ai's move is the first empty cell with the highest score, and None only on a full board. */
  lemma AiChoiceIsBest(v: Variant, b: Board, lines: seq<Line>)
    requires Searchable(b, lines)
    requires v.DepthLimited? ==> 0 <= v.maxDepth
    ensures BestChoice(v, b, lines, AiChoice(v, b, lines))
  {
    PickRowsBest(v, b, lines, AiScores(v, b, lines), 0, Option.None, -Infinity(|b|, lines));
  }

  /** ai's move is the only one satisfying BestChoice. */
  lemma AiChoiceUnique(v: Variant, b: Board, lines: seq<Line>, choice: Option<Cell>)
    requires Searchable(b, lines)
    requires v.DepthLimited? ==> 0 <= v.maxDepth
    ensures BestChoice(v, b, lines, choice) <==> choice == AiChoice(v, b, lines)
  {
    AiChoiceIsBest(v, b, lines);
    if BestChoice(v, b, lines, choice) {
      BestByUnique(b, AiScores(v, b, lines), choice, AiChoice(v, b, lines));
    }
  }

  lemma {:induction false} PickRowsBest(v: Variant, b: Board, lines: seq<Line>, sc: (int, int) -> int, row: nat, choice: Option<Cell>, bestScore: int)
    requires Searchable(b, lines) && row <= |b|
    requires v.DepthLimited? ==> 0 <= v.maxDepth
    requires sc == AiScores(v, b, lines)
    requires ChoiceSoFar(b, sc, -Infinity(|b|, lines), row, 0, choice, bestScore)
    ensures BestBy(b, sc, PickRows(v, b, lines, row, choice, bestScore))
    decreases |b| - row, 1
  {
    if row == |b| {
      ChoiceSoFarDone(b, sc, -Infinity(|b|, lines), choice, bestScore);
    } else {
      PickColsBest(v, b, lines, sc, row, 0, choice, bestScore);
    }
  }

  lemma {:induction false} PickColsBest(v: Variant, b: Board, lines: seq<Line>, sc: (int, int) -> int, row: nat, col: nat, choice: Option<Cell>, bestScore: int)
    requires Searchable(b, lines) && row < |b| && col <= |b|
    requires v.DepthLimited? ==> 0 <= v.maxDepth
    requires sc == AiScores(v, b, lines)
    requires ChoiceSoFar(b, sc, -Infinity(|b|, lines), row, col, choice, bestScore)
    ensures BestBy(b, sc, PickCols(v, b, lines, row, col, choice, bestScore))
    decreases |b| - row, 0, |b| - col, 2
  {
    if col == |b| {
      ChoiceSoFarNextRow(b, sc, -Infinity(|b|, lines), row, choice, bestScore);
      PickRowsBest(v, b, lines, sc, row + 1, choice, bestScore);
    } else if b[row][col].mark != Label.Empty {
      PickSkipBest(v, b, lines, sc, row, col, choice, bestScore);
    } else {
      PickTrialBest(v, b, lines, sc, row, col, choice, bestScore);
    }
  }

  lemma {:induction false} PickSkipBest(v: Variant, b: Board, lines: seq<Line>, sc: (int, int) -> int, row: nat, col: nat, choice: Option<Cell>, bestScore: int)
    requires Searchable(b, lines) && row < |b| && col < |b| && b[row][col].mark != Label.Empty
    requires v.DepthLimited? ==> 0 <= v.maxDepth
    requires sc == AiScores(v, b, lines)
    requires ChoiceSoFar(b, sc, -Infinity(|b|, lines), row, col, choice, bestScore)
    ensures BestBy(b, sc, PickCols(v, b, lines, row, col, choice, bestScore))
    decreases |b| - row, 0, |b| - col, 1
  {
    ChoiceSoFarSkip(b, sc, -Infinity(|b|, lines), row, col, choice, bestScore);
    PickColsBest(v, b, lines, sc, row, col + 1, choice, bestScore);
  }

  lemma {:induction false} PickTrialBest(v: Variant, b: Board, lines: seq<Line>, sc: (int, int) -> int, row: nat, col: nat, choice: Option<Cell>, bestScore: int)
    requires Searchable(b, lines) && row < |b| && col < |b| && b[row][col].mark == Label.Empty
    requires v.DepthLimited? ==> 0 <= v.maxDepth
    requires sc == AiScores(v, b, lines)
    requires ChoiceSoFar(b, sc, -Infinity(|b|, lines), row, col, choice, bestScore)
    ensures BestBy(b, sc, PickCols(v, b, lines, row, col, choice, bestScore))
    decreases |b| - row, 0, |b| - col, 1
  {
    assert sc(row, col) == AiScore(v, b, lines, row, col);
    if AiScore(v, b, lines, row, col) > bestScore {
      PickTakeBest(v, b, lines, sc, row, col, choice, bestScore);
    } else {
      PickKeepBest(v, b, lines, sc, row, col, choice, bestScore);
    }
  }

  lemma {:induction false} PickTakeBest(v: Variant, b: Board, lines: seq<Line>, sc: (int, int) -> int, row: nat, col: nat, choice: Option<Cell>, bestScore: int)
    requires Searchable(b, lines) && row < |b| && col < |b| && b[row][col].mark == Label.Empty
    requires v.DepthLimited? ==> 0 <= v.maxDepth
    requires sc == AiScores(v, b, lines)
    requires ChoiceSoFar(b, sc, -Infinity(|b|, lines), row, col, choice, bestScore)
    requires sc(row, col) == AiScore(v, b, lines, row, col) > bestScore
    ensures BestBy(b, sc, PickCols(v, b, lines, row, col, choice, bestScore))
    decreases |b| - row, 0, |b| - col, 0
  {
    assert PickCols(v, b, lines, row, col, choice, bestScore) == PickCols(v, b, lines, row, col + 1, Some((row, col)), sc(row, col));
    ChoiceSoFarTake(b, sc, -Infinity(|b|, lines), row, col, choice, bestScore);
    PickColsBest(v, b, lines, sc, row, col + 1, Some((row, col)), sc(row, col));
  }

  lemma {:induction false} PickKeepBest(v: Variant, b: Board, lines: seq<Line>, sc: (int, int) -> int, row: nat, col: nat, choice: Option<Cell>, bestScore: int)
    requires Searchable(b, lines) && row < |b| && col < |b| && b[row][col].mark == Label.Empty
    requires v.DepthLimited? ==> 0 <= v.maxDepth
    requires sc == AiScores(v, b, lines)
    requires ChoiceSoFar(b, sc, -Infinity(|b|, lines), row, col, choice, bestScore)
    requires sc(row, col) == AiScore(v, b, lines, row, col) <= bestScore
    ensures BestBy(b, sc, PickCols(v, b, lines, row, col, choice, bestScore))
    decreases |b| - row, 0, |b| - col, 0
  {
    assert PickCols(v, b, lines, row, col, choice, bestScore) == PickCols(v, b, lines, row, col + 1, choice, bestScore);
    ChoiceSoFarKeep(b, sc, -Infinity(|b|, lines), row, col, choice, bestScore);
    PickColsBest(v, b, lines, sc, row, col + 1, choice, bestScore);
  }
}
