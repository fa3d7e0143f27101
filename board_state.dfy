/**
 * Board state shared by both variants of TicTacToeGame: labels, stored moves,
 * the winning lines derived from the board, the winner scan, the heuristic
 * line count, the win test of test.py, and the cyclic turn order.
 */
module BoardState {

  /** A cell's label: "" for a cell nobody played, "X" or "O". */
  datatype Label = Empty | X | O

  /** The Move record: a cell and its label; an unplayed cell holds Move(row, col, Empty). */
  datatype Move = Move(row: int, col: int, mark: Label)

  /** What get_winner reports: "X", "Y" (for a line of O's), "TIE" or None. */
  datatype Winner = X | Y | TIE | None

  type Cell = (int, int)
  type Line = seq<Cell>

  /** _current_moves: a list of rows, each a list of Move. */
  type Board = seq<seq<Move>>

  const BoardSize: nat := 3

  /** The labels of DEFAULT_PLAYERS, in turn order. */
  const DefaultPlayers: seq<Label> := [Label.X, Label.O]

  /** An n×n board whose cell (r, c) stores a Move for (r, c). */
  predicate WellFormed(b: Board, n: nat)
  {
    && |b| == n
    && (forall r :: 0 <= r < n ==> |b[r]| == n)
    && (forall r, c :: 0 <= r < n && 0 <= c < n ==> b[r][c].row == r && b[r][c].col == c)
  }

  /** The board _setup_board builds: Move(row, col) everywhere. */
  function EmptyBoard(n: nat): (b: Board)
    ensures WellFormed(b, n)
    ensures forall r, c :: 0 <= r < n && 0 <= c < n ==> b[r][c].mark == Label.Empty
  {
    seq(n, r => seq(n, c => Move(r, c, Label.Empty)))
  }

  predicate OnBoard(b: Board, p: Cell)
  {
    0 <= p.0 < |b| && 0 <= p.1 < |b[p.0]|
  }

  function At(b: Board, p: Cell): Label
    requires OnBoard(b, p)
  {
    b[p.0][p.1].mark
  }

  predicate LineOn(b: Board, line: Line)
  {
    forall k :: 0 <= k < |line| ==> OnBoard(b, line[k])
  }

  predicate LinesOn(b: Board, lines: seq<Line>)
  {
    forall i :: 0 <= i < |lines| ==> LineOn(b, lines[i])
  }

  /** Store Move(r, c, l) into cell (r, c), as the simulated moves and their undos do. */
  function Place(b: Board, r: int, c: int, l: Label): (p: Board)
    requires 0 <= r < |b| && 0 <= c < |b[r]|
    ensures |p| == |b| && forall i :: 0 <= i < |b| ==> |p[i]| == |b[i]|
    ensures WellFormed(b, |b|) ==> WellFormed(p, |b|)
    ensures p[r][c] == Move(r, c, l)
    ensures forall i :: 0 <= i < |b| && i != r ==> p[i] == b[i]
    ensures forall j :: 0 <= j < |b[r]| && j != c ==> p[r][j] == b[r][j]
  {
    b[r := b[r][c := Move(r, c, l)]]
  }

  lemma LinesOnPlace(b: Board, lines: seq<Line>, r: int, c: int, l: Label)
    requires 0 <= r < |b| && 0 <= c < |b[r]|
    requires LinesOn(b, lines)
    ensures LinesOn(Place(b, r, c, l), lines)
  {
    var p := Place(b, r, c, l);
    forall i | 0 <= i < |lines| ensures LineOn(p, lines[i]) {
      assert LineOn(b, lines[i]);
    }
  }

  /** Undoing a simulated move (writing Move(r, c) back) restores the board exactly. */
  lemma UndoRestores(b: Board, r: int, c: int, l: Label)
    requires WellFormed(b, |b|) && 0 <= r < |b| && 0 <= c < |b|
    requires b[r][c].mark == Label.Empty
    ensures Place(Place(b, r, c, l), r, c, Label.Empty) == b
  {
    assert b[r][c] == Move(r, c, Label.Empty);
    assert Place(Place(b, r, c, l), r, c, Label.Empty)[r] == b[r];
  }

  // ---------------------------------------------------------------- lines

  /** The winning lines by geometry: the n rows, the n columns, the main diagonal, the anti-diagonal. */
  function Lines(n: nat): seq<Line>
  {
    RowLines(n) + ColumnLines(n) + [MainDiagonal(n), AntiDiagonal(n)]
  }

  function RowLines(n: nat): seq<Line>
  {
    seq(n, r => seq(n, c => (r, c)))
  }

  function ColumnLines(n: nat): seq<Line>
  {
    seq(n, c => seq(n, r => (r, c)))
  }

  function MainDiagonal(n: nat): Line
  {
    seq(n, i => (i, i))
  }

  function AntiDiagonal(n: nat): Line
  {
    seq(n, i => (i, n - 1 - i))
  }

  /**
   * _get_winning_combos: rows of the stored (row, col) pairs, their transpose,
   * the diagonal of the rows and the diagonal of the reversed columns.
   */
  function WinningCombos(b: Board): (lines: seq<Line>)
    requires WellFormed(b, |b|)
    ensures lines == Lines(|b|)
  {
    var n := |b|;
    var rows := StoredRows(b);
    var columns := Transpose(rows, n);
    var firstDiagonal := Diagonal(rows, n);
    var secondDiagonal := Diagonal(Reversed(columns), n);
    CombosAreLines(n, rows, columns, firstDiagonal, secondDiagonal);
    rows + columns + [firstDiagonal, secondDiagonal]
  }

  /** The (row, col) pairs of the stored moves, row by row. */
  function StoredRows(b: Board): (rows: seq<Line>)
    requires WellFormed(b, |b|)
    ensures |rows| == |b|
    ensures forall r :: 0 <= r < |b| ==> |rows[r]| == |b|
    ensures forall r, c :: 0 <= r < |b| && 0 <= c < |b| ==> rows[r][c] == (r, c)
  {
    seq(|b|, r requires 0 <= r < |b| => seq(|b|, c requires 0 <= c < |b| => (b[r][c].row, b[r][c].col)))
  }

  /** zip(*rows) on an n×n grid: column c holds entry c of every row. */
  function Transpose(rows: seq<Line>, n: nat): (columns: seq<Line>)
    requires |rows| == n && forall r :: 0 <= r < n ==> |rows[r]| == n
    ensures |columns| == n
    ensures forall c :: 0 <= c < n ==> |columns[c]| == n
    ensures forall c, r :: 0 <= c < n && 0 <= r < n ==> columns[c][r] == rows[r][c]
  {
    seq(n, c requires 0 <= c < n => seq(n, r requires 0 <= r < n => rows[r][c]))
  }

  /** Entry i of line i, for each of the n lines. */
  function Diagonal(grid: seq<Line>, n: nat): (d: Line)
    requires |grid| == n && forall i :: 0 <= i < n ==> |grid[i]| == n
    ensures |d| == n && forall i :: 0 <= i < n ==> d[i] == grid[i][i]
  {
    seq(n, i requires 0 <= i < n => grid[i][i])
  }

  function Reversed(lines: seq<Line>): (r: seq<Line>)
    ensures |r| == |lines| && forall k :: 0 <= k < |lines| ==> r[k] == lines[|lines| - 1 - k]
  {
    seq(|lines|, k requires 0 <= k < |lines| => lines[|lines| - 1 - k])
  }

  lemma CombosAreLines(n: nat, rows: seq<Line>, columns: seq<Line>, d1: Line, d2: Line)
    requires |rows| == n && |columns| == n && |d1| == n && |d2| == n
    requires forall r :: 0 <= r < n ==> |rows[r]| == n && |columns[r]| == n
    requires forall r, c :: 0 <= r < n && 0 <= c < n ==> rows[r][c] == (r, c) && columns[c][r] == (r, c)
    requires forall i :: 0 <= i < n ==> d1[i] == (i, i) && d2[i] == (i, n - 1 - i)
    ensures rows + columns + [d1, d2] == Lines(n)
  {
    forall r | 0 <= r < n
      ensures rows[r] == RowLines(n)[r] && columns[r] == ColumnLines(n)[r]
    {
    }
    assert rows == RowLines(n);
    assert columns == ColumnLines(n);
    assert d1 == MainDiagonal(n);
    assert d2 == AntiDiagonal(n);
  }

  /**
   * The geometry of the lines: 2n+2 lines of n distinct in-range cells each;
   * cell (r, c) lies in row line r and column line n+c.
   */
  lemma LinesShape(n: nat)
    ensures |Lines(n)| == 2 * n + 2
    ensures forall i :: 0 <= i < 2 * n + 2 ==> |Lines(n)[i]| == n
    ensures forall i, j :: 0 <= i < 2 * n + 2 && 0 <= j < n ==>
              0 <= Lines(n)[i][j].0 < n && 0 <= Lines(n)[i][j].1 < n
    ensures forall i, j, k :: 0 <= i < 2 * n + 2 && 0 <= j < k < n ==> Lines(n)[i][j] != Lines(n)[i][k]
    ensures forall r, c :: 0 <= r < n && 0 <= c < n ==> (r, c) in Lines(n)[r] && (r, c) in Lines(n)[n + c]
  {
    LinesInRange(n);
    LinesDistinct(n);
    LinesCover(n);
  }

  lemma LinesInRange(n: nat)
    ensures forall i, j :: 0 <= i < 2 * n + 2 && 0 <= j < n ==>
              0 <= Lines(n)[i][j].0 < n && 0 <= Lines(n)[i][j].1 < n
  {
    forall i, j | 0 <= i < 2 * n + 2 && 0 <= j < n
      ensures 0 <= Lines(n)[i][j].0 < n && 0 <= Lines(n)[i][j].1 < n
    {
      LineCell(n, i, j);
    }
  }

  lemma LinesDistinct(n: nat)
    ensures forall i, j, k :: 0 <= i < 2 * n + 2 && 0 <= j < k < n ==> Lines(n)[i][j] != Lines(n)[i][k]
  {
    forall i, j, k | 0 <= i < 2 * n + 2 && 0 <= j < k < n
      ensures Lines(n)[i][j] != Lines(n)[i][k]
    {
      LineCell(n, i, j);
      LineCell(n, i, k);
    }
  }

  lemma LinesCover(n: nat)
    ensures forall r, c :: 0 <= r < n && 0 <= c < n ==> (r, c) in Lines(n)[r] && (r, c) in Lines(n)[n + c]
  {
    forall r, c | 0 <= r < n && 0 <= c < n
      ensures (r, c) in Lines(n)[r] && (r, c) in Lines(n)[n + c]
    {
      LineCell(n, r, c);
      LineCell(n, n + c, r);
    }
  }

  /** Cell j of line i: row i, column i - n, the main diagonal, then the anti-diagonal. */
  lemma LineCell(n: nat, i: nat, j: nat)
    requires i < 2 * n + 2 && j < n
    ensures |Lines(n)[i]| == n
    ensures Lines(n)[i][j] ==
      if i < n then (i, j) else if i < 2 * n then (j, i - n) else if i == 2 * n then (j, j) else (j, n - 1 - j)
  {
  }

  /** Every cell of every line lies on an n×n board. */
  predicate LinesWithin(lines: seq<Line>, n: nat)
  {
    forall i, k :: 0 <= i < |lines| && 0 <= k < |lines[i]| ==> 0 <= lines[i][k].0 < n && 0 <= lines[i][k].1 < n
  }

  lemma LinesWithinBoard(n: nat)
    ensures LinesWithin(Lines(n), n)
  {
    LinesShape(n);
  }

  /** Lines within an n×n board can be read on any well-formed n×n board. */
  lemma LinesWithinOn(b: Board, lines: seq<Line>, n: nat)
    requires WellFormed(b, n) && LinesWithin(lines, n)
    ensures LinesOn(b, lines)
  {
  }

  // ---------------------------------------------------------------- get_winner

  /** Python's all(...) over a line: every cell of the line has label l (vacuous on an empty line). */
  predicate AllAre(b: Board, line: Line, l: Label)
    requires LineOn(b, line)
  {
    forall k :: 0 <= k < |line| ==> At(b, line[k]) == l
  }

  predicate Decided(b: Board, line: Line)
    requires LineOn(b, line)
  {
    AllAre(b, line, Label.X) || AllAre(b, line, Label.O)
  }

  /** The tie test: every cell's label is non-empty. */
  predicate Full(b: Board)
  {
    forall r, c :: 0 <= r < |b| && 0 <= c < |b[r]| ==> b[r][c].mark != Label.Empty
  }

  /** The get_winner loop, resumed at line i: X line before O line, first hit wins. */
  function WinnerFrom(b: Board, lines: seq<Line>, i: nat): (r: (Winner, Line))
    requires LinesOn(b, lines) && i <= |lines|
    ensures r.0 == Winner.X || r.0 == Winner.Y ==>
              exists k :: i <= k < |lines| && r.1 == lines[k] && Decided(b, lines[k])
                && (r.0 == Winner.X <==> AllAre(b, lines[k], Label.X))
                && forall j :: i <= j < k ==> !Decided(b, lines[j])
    ensures r.0 == Winner.TIE || r.0 == Winner.None ==>
              r.1 == [] && (r.0 == Winner.TIE <==> Full(b))
              && forall j :: i <= j < |lines| ==> !Decided(b, lines[j])
    decreases |lines| - i
  {
    if i == |lines| then
      if Full(b) then (Winner.TIE, []) else (Winner.None, [])
    else if AllAre(b, lines[i], Label.X) then (Winner.X, lines[i])
    else if AllAre(b, lines[i], Label.O) then (Winner.Y, lines[i])
    else WinnerFrom(b, lines, i + 1)
  }

  /**
   * get_winner of tictactoe.py: the first line (in list order) filled by one
   * label decides, as ("X", line) or ("Y", line); with no such line the result
   * is ("TIE", []) on a full board and (None, []) otherwise.
   */
  function GetWinner(b: Board, lines: seq<Line>): (r: (Winner, Line))
    requires LinesOn(b, lines)
    ensures r.0 == Winner.X || r.0 == Winner.Y ==>
              exists k :: 0 <= k < |lines| && r.1 == lines[k] && Decided(b, lines[k])
                && (r.0 == Winner.X <==> AllAre(b, lines[k], Label.X))
                && forall j :: 0 <= j < k ==> !Decided(b, lines[j])
    ensures r.0 == Winner.TIE <==> Full(b) && forall j :: 0 <= j < |lines| ==> !Decided(b, lines[j])
    ensures r.0 == Winner.None <==> !Full(b) && forall j :: 0 <= j < |lines| ==> !Decided(b, lines[j])
    ensures r.0 == Winner.TIE || r.0 == Winner.None ==> r.1 == []
  {
    WinnerFrom(b, lines, 0)
  }

  // ---------------------------------------------------------------- heuristic_evaluation

  /** Python's any(...) over a line: some cell of the line has label l. */
  predicate Holds(b: Board, line: Line, l: Label)
    requires LineOn(b, line)
  {
    exists k :: 0 <= k < |line| && At(b, line[k]) == l
  }

  /** A line open for `me`: `me` is in it and `them` is not. */
  predicate OpenFor(b: Board, line: Line, me: Label, them: Label)
    requires LineOn(b, line)
  {
    Holds(b, line, me) && !Holds(b, line, them)
  }

  /** How many of the lines are open for `me`. */
  function CountOpen(b: Board, lines: seq<Line>, me: Label, them: Label): nat
    requires LinesOn(b, lines)
    decreases |lines|
  {
    if lines == [] then 0
    else
      var last := lines[|lines| - 1];
      CountOpen(b, lines[..|lines| - 1], me, them) + (if OpenFor(b, last, me, them) then 1 else 0)
  }

  /** The score heuristic_evaluation computes: lines open for O minus lines open for X. */
  function HeuristicValue(b: Board, lines: seq<Line>): int
    requires LinesOn(b, lines)
  {
    CountOpen(b, lines, Label.O, Label.X) - CountOpen(b, lines, Label.X, Label.O)
  }

  lemma {:induction false} CountOpenDisjoint(b: Board, lines: seq<Line>)
    requires LinesOn(b, lines)
    ensures CountOpen(b, lines, Label.O, Label.X) + CountOpen(b, lines, Label.X, Label.O) <= |lines|
    decreases |lines|
  {
    if lines != [] {
      CountOpenDisjoint(b, lines[..|lines| - 1]);
    }
  }

  /** No line is open for both players, so the heuristic lies within ±(number of lines). */
  lemma HeuristicBounds(b: Board, lines: seq<Line>)
    requires LinesOn(b, lines)
    ensures -|lines| <= HeuristicValue(b, lines) <= |lines|
  {
    CountOpenDisjoint(b, lines);
  }

  /** A board with no labelled cell. */
  predicate Blank(b: Board)
  {
    forall r, c :: 0 <= r < |b| && 0 <= c < |b[r]| ==> b[r][c].mark == Label.Empty
  }

  /** A well-formed board with no labelled cell is the board _setup_board builds. */
  lemma BlankIsEmptyBoard(b: Board, n: nat)
    requires WellFormed(b, n) && Blank(b)
    ensures b == EmptyBoard(n)
  {
    forall r | 0 <= r < n ensures b[r] == EmptyBoard(n)[r] {
      assert forall c :: 0 <= c < n ==> b[r][c] == Move(r, c, Label.Empty);
    }
  }

  lemma {:induction false} CountOpenOfBlank(b: Board, lines: seq<Line>, me: Label, them: Label)
    requires LinesOn(b, lines) && Blank(b) && me != Label.Empty
    ensures CountOpen(b, lines, me, them) == 0
    decreases |lines|
  {
    if lines != [] {
      CountOpenOfBlank(b, lines[..|lines| - 1], me, them);
      var last := lines[|lines| - 1];
      assert LineOn(b, last);
      assert forall k :: 0 <= k < |last| ==> At(b, last[k]) == Label.Empty;
    }
  }

  /** On a board nobody has played, every line is open for no one: the heuristic is 0. */
  lemma HeuristicOfBlankBoard(b: Board, lines: seq<Line>)
    requires LinesOn(b, lines) && Blank(b)
    ensures HeuristicValue(b, lines) == 0
  {
    CountOpenOfBlank(b, lines, Label.O, Label.X);
    CountOpenOfBlank(b, lines, Label.X, Label.O);
  }

  // ---------------------------------------------------------------- test.py's win test

  /** set(self._current_moves[n][m].mark for n, m in combo) */
  function LabelSet(b: Board, line: Line): set<Label>
    requires LineOn(b, line)
  {
    set k | 0 <= k < |line| :: At(b, line[k])
  }

  /** is_win of process_move and getWinner: exactly one label on the line, and not "". */
  predicate IsWin(b: Board, line: Line)
    requires LineOn(b, line)
  {
    |LabelSet(b, line)| == 1 && Label.Empty !in LabelSet(b, line)
  }

  /**
   * test.py's set-based test agrees with get_winner's all-X / all-O test,
   * except on a line with no cells, where the set is empty.
   */
  lemma IsWinIff(b: Board, line: Line)
    requires LineOn(b, line)
    ensures IsWin(b, line) <==> |line| > 0 && Decided(b, line)
  {
    var s := LabelSet(b, line);
    if |line| > 0 && Decided(b, line) {
      var l := if AllAre(b, line, Label.X) then Label.X else Label.O;
      assert At(b, line[0]) in s;
      assert s == {l};
    }
    if IsWin(b, line) {
      var l :| l in s;
      assert |s - {l}| == 0;
      assert s == {l};
      forall k | 0 <= k < |line| ensures At(b, line[k]) == l {
        assert At(b, line[k]) in s;
      }
      if l == Label.X {
        assert AllAre(b, line, Label.X);
      } else {
        assert AllAre(b, line, Label.O);
      }
    }
  }

  /** The index at which the process_move loop stops: the first winning line at or after i, else |lines|. */
  function FirstWin(b: Board, lines: seq<Line>, i: nat): (k: nat)
    requires LinesOn(b, lines) && i <= |lines|
    ensures i <= k <= |lines|
    ensures k < |lines| ==> IsWin(b, lines[k])
    ensures forall j :: i <= j < k ==> !IsWin(b, lines[j])
    decreases |lines| - i
  {
    if i == |lines| then i
    else if IsWin(b, lines[i]) then i
    else FirstWin(b, lines, i + 1)
  }

  /**
   * On lines that all have cells, the process_move loop finds a winning line
   * exactly when get_winner reports "X" or "Y", and it is the same line.
   */
  lemma {:induction false} FirstWinIsWinner(b: Board, lines: seq<Line>, i: nat)
    requires LinesOn(b, lines) && i <= |lines|
    requires forall j :: 0 <= j < |lines| ==> |lines[j]| > 0
    ensures FirstWin(b, lines, i) < |lines| <==> WinnerFrom(b, lines, i).0 in {Winner.X, Winner.Y}
    ensures FirstWin(b, lines, i) < |lines| ==> WinnerFrom(b, lines, i).1 == lines[FirstWin(b, lines, i)]
    decreases |lines| - i
  {
    if i < |lines| {
      IsWinIff(b, lines[i]);
      if !IsWin(b, lines[i]) {
        FirstWinIsWinner(b, lines, i + 1);
      }
    }
  }

  /** On the lines of a board with cells, process_move and getWinner find a win exactly when get_winner does. */
  lemma WinTestsAgree(b: Board, n: nat)
    requires n > 0 && WellFormed(b, n)
    ensures LinesOn(b, Lines(n))
    ensures FirstWin(b, Lines(n), 0) < |Lines(n)| <==> GetWinner(b, Lines(n)).0 in {Winner.X, Winner.Y}
    ensures FirstWin(b, Lines(n), 0) < |Lines(n)| ==> GetWinner(b, Lines(n)).1 == Lines(n)[FirstWin(b, Lines(n), 0)]
  {
    LinesWithinBoard(n);
    LinesWithinOn(b, Lines(n), n);
    LinesShape(n);
    FirstWinIsWinner(b, Lines(n), 0);
  }

  // ---------------------------------------------------------------- empty cells

  function RowEmpties(row: seq<Move>): nat
    decreases |row|
  {
    if row == [] then 0
    else RowEmpties(row[..|row| - 1]) + (if row[|row| - 1].mark == Label.Empty then 1 else 0)
  }

  /** The number of cells not yet played: the cells_left of the UI. */
  function EmptyCount(b: Board): nat
    decreases |b|
  {
    if b == [] then 0 else EmptyCount(b[..|b| - 1]) + RowEmpties(b[|b| - 1])
  }

  lemma {:induction false} RowEmptiesBound(row: seq<Move>)
    ensures RowEmpties(row) <= |row|
    ensures RowEmpties(row) == 0 <==> forall c :: 0 <= c < |row| ==> row[c].mark != Label.Empty
    decreases |row|
  {
    if row != [] {
      var front := row[..|row| - 1];
      RowEmptiesBound(front);
      assert forall c :: 0 <= c < |front| ==> front[c] == row[c];
    }
  }

  /** An n×n board has at most n² empty cells, and none exactly when it is full. */
  lemma {:induction false} EmptyCountBound(b: Board, m: nat)
    requires forall r :: 0 <= r < |b| ==> |b[r]| == m
    ensures EmptyCount(b) <= |b| * m
    ensures EmptyCount(b) == 0 <==> Full(b)
    decreases |b|
  {
    if b != [] {
      var front := b[..|b| - 1];
      EmptyCountBound(front, m);
      RowEmptiesBound(b[|b| - 1]);
      assert (|b| - 1) * m + m == |b| * m;
      assert forall r :: 0 <= r < |front| ==> front[r] == b[r];
    }
  }

  lemma {:induction false} RowEmptiesUpdate(row: seq<Move>, c: int, m: Move)
    requires 0 <= c < |row| && row[c].mark == Label.Empty && m.mark != Label.Empty
    ensures RowEmpties(row[c := m]) == RowEmpties(row) - 1
    decreases |row|
  {
    var row' := row[c := m];
    if c == |row| - 1 {
      assert row'[..|row| - 1] == row[..|row| - 1];
    } else {
      assert row'[..|row| - 1] == row[..|row| - 1][c := m];
      RowEmptiesUpdate(row[..|row| - 1], c, m);
    }
  }

  /** Playing an empty cell uses up exactly one empty cell: the measure the search recursion decreases. */
  lemma {:induction false} EmptyCountPlace(b: Board, r: int, c: int, l: Label)
    requires 0 <= r < |b| && 0 <= c < |b[r]| && b[r][c].mark == Label.Empty && l != Label.Empty
    ensures EmptyCount(Place(b, r, c, l)) == EmptyCount(b) - 1
    decreases |b|
  {
    var p := Place(b, r, c, l);
    if r == |b| - 1 {
      assert p[..|b| - 1] == b[..|b| - 1];
      RowEmptiesUpdate(b[r], c, Move(r, c, l));
    } else {
      assert p[..|b| - 1] == Place(b[..|b| - 1], r, c, l);
      EmptyCountPlace(b[..|b| - 1], r, c, l);
    }
  }

  // ---------------------------------------------------------------- turn order

  /** The index into the player tuple after `toggles` calls of toggle_player (itertools.cycle). */
  function TurnAfter(players: nat, toggles: nat): nat
    requires players > 0
  {
    if toggles == 0 then 0 else (TurnAfter(players, toggles - 1) + 1) % players
  }

  /** With the default players the turn alternates X, O, X, ... starting from X. */
  lemma {:induction false} DefaultPlayersAlternate(toggles: nat)
    ensures TurnAfter(|DefaultPlayers|, toggles) == toggles % 2
    ensures DefaultPlayers[TurnAfter(|DefaultPlayers|, toggles)] == if toggles % 2 == 0 then Label.X else Label.O
  {
    if toggles > 0 {
      DefaultPlayersAlternate(toggles - 1);
    }
  }
}
