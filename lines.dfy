/** Win and terminal detection (board.py: is_winner, is_terminal,
    is_winning_move). */
module Lines {
  import opened Cells

  /** The four line directions the win scan walks. */
  datatype Direction = Horizontal | Vertical | Diagonal | AntiDiagonal

  /** The position `k` steps from `m` along `d`; the anti-diagonal climbs
      one row for every column it moves right. */
  function Shift(m: Move, d: Direction, k: int): Move {
    match d
    case Horizontal => Move(m.row, m.col + k)
    case Vertical => Move(m.row + k, m.col)
    case Diagonal => Move(m.row + k, m.col + k)
    case AntiDiagonal => Move(m.row - k, m.col + k)
  }

  /** `len` consecutive in-range cells from `start` along `d` all hold `s`. */
  predicate RunOf(b: BoardState, start: Move, d: Direction, s: Symbol, len: int)
    requires WellFormed(b)
  {
    forall k | 0 <= k < len :: InRange(b, Shift(start, d, k)) && At(b, Shift(start, d, k)) == s
  }

  /** A window of exactly `toWin` cells from `start` along `d` holds `s`. */
  predicate Window(b: BoardState, start: Move, d: Direction, s: Symbol)
    requires WellFormed(b)
  {
    RunOf(b, start, d, s, b.toWin)
  }

  /** is_winner: the four sliding-window scans, each over the start
      positions the program enumerates. */
  predicate IsWinner(b: BoardState, s: Symbol)
    requires WellFormed(b)
  {
    || (exists r, c | 0 <= r < b.rows && 0 <= c < b.cols - b.toWin + 1 :: Window(b, Move(r, c), Horizontal, s))
    || (exists c, r | 0 <= c < b.cols && 0 <= r < b.rows - b.toWin + 1 :: Window(b, Move(r, c), Vertical, s))
    || (exists r, c | 0 <= r < b.rows - b.toWin + 1 && 0 <= c < b.cols - b.toWin + 1 :: Window(b, Move(r, c), Diagonal, s))
    || (exists r, c | b.toWin - 1 <= r < b.rows && 0 <= c < b.cols - b.toWin + 1 :: Window(b, Move(r, c), AntiDiagonal, s))
  }

  /** is_terminal: `(win X or win O) if True else board_full()`. The
      constant condition makes the full-board test unreachable. */
  predicate IsTerminal(b: BoardState)
    requires WellFormed(b)
  {
    if true then IsWinner(b, X) || IsWinner(b, O) else BoardFull(b)
  }

  /** is_winning_move: a copy of the board with the move marked is a win. */
  predicate IsWinningMove(b: BoardState, s: Symbol, m: Move)
    requires WellFormed(b) && InRange(b, m)
  {
    IsWinner(Mark(b, s, m), s)
  }

  /** A win is exactly some window of `toWin` cells, in any direction and
      anywhere on the grid, all holding the symbol. */
  lemma WinnerIffWindow(b: BoardState, s: Symbol)
    requires WellFormed(b) && b.toWin >= 1
    ensures IsWinner(b, s) <==> exists start, d :: Window(b, start, d, s)
  {
    if start, d :| Window(b, start, d, s) {
      var first, last := Shift(start, d, 0), Shift(start, d, b.toWin - 1);
      assert InRange(b, first) && InRange(b, last);
      match d
      case Horizontal => assert Window(b, Move(start.row, start.col), Horizontal, s);
      case Vertical => assert Window(b, Move(start.row, start.col), Vertical, s);
      case Diagonal => assert Window(b, Move(start.row, start.col), Diagonal, s);
      case AntiDiagonal => assert Window(b, Move(start.row, start.col), AntiDiagonal, s);
    }
  }

  /** A run of `toWin` or more cells is a win: longer runs count too. */
  lemma LongRunWins(b: BoardState, start: Move, d: Direction, s: Symbol, len: int)
    requires WellFormed(b) && b.toWin >= 1 && len >= b.toWin
    requires RunOf(b, start, d, s, len)
    ensures IsWinner(b, s)
  {
    assert Window(b, start, d, s);
    WinnerIffWindow(b, s);
  }

  /** The cells of `s` on the board. */
  function Stones(b: BoardState, s: Symbol): set<Move>
    requires WellFormed(b)
  {
    set r, c | 0 <= r < b.rows && 0 <= c < b.cols && b.cells[r][c] == s :: Move(r, c)
  }

  /** The first `n` cells of the line from `start` along `d`. */
  function LineCells(start: Move, d: Direction, n: nat): (cs: set<Move>)
    ensures forall k | 0 <= k < n :: Shift(start, d, k) in cs
    decreases n
  {
    if n == 0 then {} else LineCells(start, d, n - 1) + {Shift(start, d, n - 1)}
  }

  /** Every cell of the line is one of its first `n` steps. */
  lemma {:induction false} LineCellsWithin(start: Move, d: Direction, n: nat, m: Move)
    requires m in LineCells(start, d, n)
    ensures exists k | 0 <= k < n :: m == Shift(start, d, k)
  {
    if m != Shift(start, d, n - 1) {
      LineCellsWithin(start, d, n - 1, m);
    }
  }

  lemma {:induction false} LineCellsCount(start: Move, d: Direction, n: nat)
    ensures |LineCells(start, d, n)| == n
  {
    if n > 0 {
      var prev, last := LineCells(start, d, n - 1), Shift(start, d, n - 1);
      LineCellsCount(start, d, n - 1);
      if last in prev {
        LineCellsWithin(start, d, n - 1, last);
        assert false;
      }
    }
  }

  lemma {:induction false} SubsetCardinality<T>(a: set<T>, b: set<T>)
    requires a <= b
    ensures |a| <= |b|
    decreases |b|
  {
    if a != {} {
      var x :| x in a;
      SubsetCardinality(a - {x}, b - {x});
    }
  }

  /** A win needs at least `toWin` stones of the symbol, so a position
      whose stones of `s` are fewer, such as an isolated run of `toWin - 1`,
      is not a win. */
  lemma WinNeedsStones(b: BoardState, s: Symbol)
    requires WellFormed(b) && b.toWin >= 1 && IsWinner(b, s)
    ensures |Stones(b, s)| >= b.toWin
  {
    WinnerIffWindow(b, s);
    var start, d :| Window(b, start, d, s);
    var line := LineCells(start, d, b.toWin);
    forall m | m in line ensures m in Stones(b, s) {
      LineCellsWithin(start, d, b.toWin, m);
      var k :| 0 <= k < b.toWin && m == Shift(start, d, k);
      assert InRange(b, m) && At(b, m) == s;
    }
    LineCellsCount(start, d, b.toWin);
    SubsetCardinality(line, Stones(b, s));
  }

  /** A position whose stones of `s` all lie on one run of `toWin - 1` cells
      is not a win for `s`. */
  lemma ShortRunIsNoWin(b: BoardState, s: Symbol, start: Move, d: Direction)
    requires WellFormed(b) && b.toWin >= 1
    requires Stones(b, s) <= LineCells(start, d, b.toWin - 1)
    ensures !IsWinner(b, s)
  {
    if IsWinner(b, s) {
      WinNeedsStones(b, s);
      LineCellsCount(start, d, b.toWin - 1);
      SubsetCardinality(Stones(b, s), LineCells(start, d, b.toWin - 1));
    }
  }

  /** A full board without a line is not terminal. */
  lemma FullBoardWithoutLineNotTerminal(b: BoardState)
    requires WellFormed(b) && BoardFull(b) && !IsWinner(b, X) && !IsWinner(b, O)
    ensures !IsTerminal(b)
  {
  }
}
