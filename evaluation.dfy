/** The run-length heuristic (board.py: evaluate_direction,
    evaluate_line_with_defense, evaluate_board), stated as functions that the
    loops of class Board are proved against. */
module Evaluation {
  import opened Cells
  import opened Lines

  /** One step from `m` by the direction vector (dr, dc). */
  function Step(m: Move, dr: int, dc: int): Move {
    Move(m.row + dr, m.col + dc)
  }

  /** The position `k` steps of (dr, dc) away from `m`. */
  function Walk(m: Move, dr: int, dc: int, k: nat): Move
    decreases k
  {
    if k == 0 then m else Walk(Step(m, dr, dc), dr, dc, k - 1)
  }

  /** One scan loop of evaluate_direction: from `m`, count cells holding `s`
      while in range and while fewer than `limit` were counted. Returns the
      count and the first position after the counted cells: every counted
      cell holds `s`, and the scan stops at the cap, at the border or on a
      cell not holding `s`. */
  function Scan(b: BoardState, m: Move, dr: int, dc: int, s: Symbol, limit: nat): (r: (nat, Move))
    requires WellFormed(b)
    ensures r.0 <= limit
    ensures r.1 == Walk(m, dr, dc, r.0)
    ensures forall k | 0 <= k < r.0 :: InRange(b, Walk(m, dr, dc, k)) && At(b, Walk(m, dr, dc, k)) == s
    ensures r.0 == limit || OutOfRange(b, r.1) || At(b, r.1) != s
    decreases limit
  {
    if limit == 0 || OutOfRange(b, m) || At(b, m) != s then (0, m)
    else
      var rest := Scan(b, Step(m, dr, dc), dr, dc, s, limit - 1);
      assert forall k | 1 <= k < rest.0 + 1 :: Walk(m, dr, dc, k) == Walk(Step(m, dr, dc), dr, dc, k - 1);
      (rest.0 + 1, rest.1)
  }

  /** What evaluate_direction learns about the line through (row, col):
      the number of cells of the symbol on both sides together, and whether
      each side ends at the border or at a non-empty cell. */
  datatype RunInfo = RunInfo(length: nat, blockedStart: bool, blockedEnd: bool)

  /** A side is blocked when its scan started on the board and stopped at the
      border or on a non-empty cell. */
  predicate SideBlocked(b: BoardState, first: Move, stop: Move)
    requires WellFormed(b)
  {
    InRange(b, first) && (OutOfRange(b, stop) || At(b, stop) != Empty)
  }

  /** The scan of one side, which only starts when its first neighbour is on
      the board. */
  function SideScan(b: BoardState, first: Move, dr: int, dc: int, s: Symbol, limit: nat): (r: (nat, Move))
    requires WellFormed(b)
    ensures r.0 <= limit
    ensures OutOfRange(b, first) ==> r == (0, first)
  {
    if InRange(b, first) then Scan(b, first, dr, dc, s, limit) else (0, first)
  }

  /** The two scans of evaluate_direction: forward from the neighbour
      (row + dr, col + dc), then backward from (row - dr, col - dc) with the
      same counter, both capped by `toWin`. */
  function DirectionRun(b: BoardState, row: int, col: int, dr: int, dc: int, s: Symbol): (r: RunInfo)
    requires WellFormed(b)
    ensures r.length <= b.toWin
    ensures OutOfRange(b, Move(row + dr, col + dc)) ==> !r.blockedEnd
    ensures OutOfRange(b, Move(row - dr, col - dc)) ==> !r.blockedStart
  {
    var head, tail := Move(row + dr, col + dc), Move(row - dr, col - dc);
    var (headLen, headStop) := SideScan(b, head, dr, dc, s, b.toWin);
    var (tailLen, tailStop) := SideScan(b, tail, -dr, -dc, s, b.toWin - headLen);
    RunInfo(headLen + tailLen, SideBlocked(b, tail, tailStop), SideBlocked(b, head, headStop))
  }

  /** The scoring table of evaluate_direction. */
  function RunScore(length: nat, blockedStart: bool, blockedEnd: bool): (score: int)
    ensures score in {0, 50, 100, 500, 1000, 5000, 10000}
    ensures length !in {2, 3, 4} ==> score == 0
    ensures blockedStart && blockedEnd ==> score == 0
  {
    if length == 4 then
      if !blockedStart && !blockedEnd then 10000
      else if !blockedStart || !blockedEnd then 5000
      else 0
    else if length == 3 then
      if !blockedStart && !blockedEnd then 1000
      else if !blockedStart || !blockedEnd then 500
      else 0
    else if length == 2 then
      if !blockedStart && !blockedEnd then 100
      else if !blockedStart || !blockedEnd then 50
      else 0
    else 0
  }

  /** An open run scores twice a run blocked on one side, and a run
      blocked on one side outscores every shorter run. */
  lemma RunScoreTiers(length: nat)
    requires length in {2, 3, 4}
    ensures RunScore(length, false, false) == 2 * RunScore(length, true, false) == 2 * RunScore(length, false, true)
    ensures length > 2 ==> RunScore(length, true, false) > RunScore(length - 1, false, false)
  {
  }

  /** evaluate_direction. */
  function DirectionScore(b: BoardState, row: int, col: int, dr: int, dc: int, s: Symbol): (score: int)
    requires WellFormed(b)
    ensures 0 <= score <= 10000
  {
    var run := DirectionRun(b, row, col, dr, dc, s);
    RunScore(run.length, run.blockedStart, run.blockedEnd)
  }

  /** evaluate_line_with_defense: own score minus the opponent's. */
  function LineScore(b: BoardState, row: int, col: int, dr: int, dc: int, p: Symbol, o: Symbol): (score: int)
    requires WellFormed(b)
    ensures -10000 <= score <= 10000
  {
    DirectionScore(b, row, col, dr, dc, p) - DirectionScore(b, row, col, dr, dc, o)
  }

  /** The four directions evaluate_board scores through every empty cell:
      down, right, down-right and up-right. */
  const Directions: seq<(int, int)> := [(1, 0), (0, 1), (1, 1), (-1, 1)]

  /** The sum of the line scores through (row, col) over the first `n`
      directions. */
  function CellScore(b: BoardState, row: int, col: int, p: Symbol, o: Symbol, n: nat): int
    requires WellFormed(b) && n <= |Directions|
  {
    if n == 0 then 0
    else CellScore(b, row, col, p, o, n - 1) + LineScore(b, row, col, Directions[n - 1].0, Directions[n - 1].1, p, o)
  }

  /** The contribution of the first `n` cells of row `row`: only empty cells
      are scored. */
  function RowScore(b: BoardState, row: nat, p: Symbol, o: Symbol, n: nat): int
    requires WellFormed(b) && row < b.rows && n <= b.cols
  {
    if n == 0 then 0
    else RowScore(b, row, p, o, n - 1)
         + (if b.cells[row][n - 1] == Empty then CellScore(b, row, n - 1, p, o, |Directions|) else 0)
  }

  /** The contribution of the first `n` rows. */
  function GridScore(b: BoardState, p: Symbol, o: Symbol, n: nat): int
    requires WellFormed(b) && n <= b.rows
  {
    if n == 0 then 0 else GridScore(b, p, o, n - 1) + RowScore(b, n - 1, p, o, b.cols)
  }

  /** The value evaluate_board returns for a position one side has won. */
  const WinScore := 100000

  /** evaluate_board: a line of the player is checked first, then one of the
      opponent; otherwise the heuristic sum over every empty cell. */
  function BoardScore(b: BoardState, p: Symbol, o: Symbol): int
    requires WellFormed(b)
  {
    if IsWinner(b, p) then WinScore
    else if IsWinner(b, o) then -WinScore
    else GridScore(b, p, o, b.rows)
  }

  lemma {:induction false} CellScoreSwap(b: BoardState, row: int, col: int, p: Symbol, o: Symbol, n: nat)
    requires WellFormed(b) && n <= |Directions|
    ensures CellScore(b, row, col, o, p, n) == -CellScore(b, row, col, p, o, n)
  {
    if n > 0 {
      CellScoreSwap(b, row, col, p, o, n - 1);
    }
  }

  lemma {:induction false} RowScoreSwap(b: BoardState, row: nat, p: Symbol, o: Symbol, n: nat)
    requires WellFormed(b) && row < b.rows && n <= b.cols
    ensures RowScore(b, row, o, p, n) == -RowScore(b, row, p, o, n)
  {
    if n > 0 {
      RowScoreSwap(b, row, p, o, n - 1);
      CellScoreSwap(b, row, n - 1, p, o, |Directions|);
    }
  }

  lemma {:induction false} GridScoreSwap(b: BoardState, p: Symbol, o: Symbol, n: nat)
    requires WellFormed(b) && n <= b.rows
    ensures GridScore(b, o, p, n) == -GridScore(b, p, o, n)
  {
    if n > 0 {
      GridScoreSwap(b, p, o, n - 1);
      RowScoreSwap(b, n - 1, p, o, b.cols);
    }
  }

  /** Swapping the two symbols negates the evaluation, unless both sides
      have a line (then both orders give the player's win value). */
  lemma BoardScoreSwap(b: BoardState, p: Symbol, o: Symbol)
    requires WellFormed(b) && !(IsWinner(b, p) && IsWinner(b, o))
    ensures BoardScore(b, o, p) == -BoardScore(b, p, o)
  {
    GridScoreSwap(b, p, o, b.rows);
  }

  lemma {:induction false} CellScoreBound(b: BoardState, row: int, col: int, p: Symbol, o: Symbol, n: nat)
    requires WellFormed(b) && n <= |Directions|
    ensures -10000 * n <= CellScore(b, row, col, p, o, n) <= 10000 * n
  {
    if n > 0 {
      CellScoreBound(b, row, col, p, o, n - 1);
    }
  }

  lemma {:induction false} RowScoreBound(b: BoardState, row: nat, p: Symbol, o: Symbol, n: nat)
    requires WellFormed(b) && row < b.rows && n <= b.cols
    ensures -40000 * n <= RowScore(b, row, p, o, n) <= 40000 * n
  {
    if n > 0 {
      RowScoreBound(b, row, p, o, n - 1);
      CellScoreBound(b, row, n - 1, p, o, |Directions|);
    }
  }

  lemma {:induction false} GridScoreBound(b: BoardState, p: Symbol, o: Symbol, n: nat)
    requires WellFormed(b) && n <= b.rows
    ensures -40000 * b.cols * n <= GridScore(b, p, o, n) <= 40000 * b.cols * n
  {
    if n > 0 {
      GridScoreBound(b, p, o, n - 1);
      RowScoreBound(b, n - 1, p, o, b.cols);
      assert 40000 * b.cols * n == 40000 * b.cols * (n - 1) + 40000 * b.cols;
    }
  }

  /** Without a line, the evaluation is at most 40000 per cell in magnitude
      (four directions, at most 10000 each). This bound stays below the win
      value 100000 only on a 1x1 board, so it does not by itself make a won
      position outscore every position without a line. */
  lemma HeuristicBound(b: BoardState, p: Symbol, o: Symbol)
    requires WellFormed(b) && !IsWinner(b, p) && !IsWinner(b, o)
    ensures -40000 * b.rows * b.cols <= BoardScore(b, p, o) <= 40000 * b.rows * b.cols
  {
    GridScoreBound(b, p, o, b.rows);
    assert 40000 * b.cols * b.rows == 40000 * b.rows * b.cols;
  }
}
