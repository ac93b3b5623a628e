/** The value of a Gomoku board: cells, positions, occupancy and marking
    (board.py, class Board). The search explores boards as values, because
    the program deep-copies the board before every trial move. */
module Cells {

  /** A cell of the grid. The program stores the integer 0 for an empty cell
      and the strings "X" and "O" for marked ones. */
  datatype Cell = Empty | X | O

  /** A player's symbol: a cell value other than the empty one. */
  type Symbol = c: Cell | c != Empty witness X

  /** The other player's symbol ("O" for "X", "X" for anything else). */
  function Opponent(s: Symbol): (o: Symbol)
    ensures o != s
  {
    if s == X then O else X
  }

  /** A position (row, col). Neighbours of border cells lie outside the grid,
      so coordinates are unbounded integers. */
  datatype Move = Move(row: int, col: int)

  /** The fields of a board: its dimensions, the number of cells needed in a
      row to win, the grid, the count of marks and the history of marks. */
  datatype BoardState = BoardState(
    rows: nat,
    cols: nat,
    toWin: nat,
    cells: seq<seq<Cell>>,
    markedCells: nat,
    orderedMoves: seq<Move>)

  /** The grid is built as `cols` lists of `rows` cells and read as
      `cells[row][col]`, so every access stays in bounds only on a square
      board. */
  predicate WellFormed(b: BoardState) {
    && b.rows == b.cols
    && |b.cells| == b.cols
    && forall i | 0 <= i < |b.cells| :: |b.cells[i]| == b.rows
  }

  /** The grid of a fresh board: every cell empty. */
  function EmptyGrid(rows: nat, cols: nat): (g: seq<seq<Cell>>)
    ensures |g| == cols
    ensures forall i | 0 <= i < cols :: |g[i]| == rows
    ensures forall i, j | 0 <= i < cols && 0 <= j < rows :: g[i][j] == Empty
  {
    seq(cols, _ => seq(rows, _ => Empty))
  }

  /** A board as constructed: empty grid, no marks, no history. */
  function NewBoard(rows: nat, cols: nat, toWin: nat): (b: BoardState)
    requires rows == cols
    ensures WellFormed(b)
    ensures b.rows == rows && b.cols == cols && b.toWin == toWin
    ensures forall m | InRange(b, m) :: At(b, m) == Empty
    ensures b.markedCells == 0 && b.orderedMoves == []
  {
    BoardState(rows, cols, toWin, EmptyGrid(rows, cols), 0, [])
  }

  /** True when the position lies outside the grid. */
  predicate OutOfRange(b: BoardState, m: Move) {
    m.row < 0 || m.row >= b.rows || m.col < 0 || m.col >= b.cols
  }

  predicate InRange(b: BoardState, m: Move) {
    !OutOfRange(b, m)
  }

  /** The content of an in-range cell. */
  function At(b: BoardState, m: Move): Cell
    requires WellFormed(b) && InRange(b, m)
  {
    b.cells[m.row][m.col]
  }

  /** Row-major order on positions. */
  predicate Before(m: Move, n: Move) {
    m.row < n.row || (m.row == n.row && m.col < n.col)
  }

  /** Strictly increasing in row-major order, hence free of duplicates. */
  predicate Increasing(s: seq<Move>) {
    forall i, j | 0 <= i < j < |s| :: Before(s[i], s[j])
  }

  predicate NoDuplicates<T(==)>(s: seq<T>) {
    forall i, j | 0 <= i < j < |s| :: s[i] != s[j]
  }

  /** The empty cells of row `row` from column `col` on, left to right. */
  function EmptyInRow(b: BoardState, row: nat, col: nat): (r: seq<Move>)
    requires WellFormed(b) && row < b.rows
    ensures forall m :: m in r <==> m.row == row && col <= m.col < b.cols && b.cells[row][m.col] == Empty
    ensures Increasing(r)
    decreases b.cols - col
  {
    if col >= b.cols then []
    else if b.cells[row][col] == Empty then [Move(row, col)] + EmptyInRow(b, row, col + 1)
    else EmptyInRow(b, row, col + 1)
  }

  /** The empty cells of the rows from `row` on, in row-major order. */
  function EmptyFromRow(b: BoardState, row: nat): (r: seq<Move>)
    requires WellFormed(b)
    ensures forall m :: m in r <==> row <= m.row < b.rows && 0 <= m.col < b.cols && b.cells[m.row][m.col] == Empty
    ensures Increasing(r)
    decreases b.rows - row
  {
    if row >= b.rows then []
    else
      var here, rest := EmptyInRow(b, row, 0), EmptyFromRow(b, row + 1);
      assert forall i | 0 <= i < |here| :: here[i] in here;
      assert forall j | 0 <= j < |rest| :: rest[j] in rest;
      here + rest
  }

  /** get_empty_cells: exactly the in-range empty cells, in row-major order,
      each once. */
  function EmptyCells(b: BoardState): (r: seq<Move>)
    requires WellFormed(b)
    ensures forall m :: m in r <==> InRange(b, m) && At(b, m) == Empty
    ensures Increasing(r) && NoDuplicates(r)
  {
    EmptyFromRow(b, 0)
  }

  /** is_valid_move: membership in the list of empty cells. */
  predicate IsValidMove(b: BoardState, m: Move)
    requires WellFormed(b)
    ensures IsValidMove(b, m) <==> !OutOfRange(b, m) && At(b, m) == Empty
  {
    m in EmptyCells(b)
  }

  /** mark_cell: writes the symbol at the position, counts the mark and
      appends the position to the history. It does not check that the cell
      was empty. */
  function Mark(b: BoardState, s: Symbol, m: Move): (r: BoardState)
    requires WellFormed(b) && InRange(b, m)
    ensures WellFormed(r)
    ensures r.rows == b.rows && r.cols == b.cols && r.toWin == b.toWin
    ensures At(r, m) == s
    ensures forall p | InRange(b, p) && p != m :: At(r, p) == At(b, p)
    ensures r.markedCells == b.markedCells + 1
    ensures r.orderedMoves == b.orderedMoves + [m]
  {
    b.(cells := b.cells[m.row := b.cells[m.row][m.col := s]],
       markedCells := b.markedCells + 1,
       orderedMoves := b.orderedMoves + [m])
  }

  /** board_full: the count of marks equals the number of cells. */
  predicate BoardFull(b: BoardState) {
    b.markedCells == b.rows * b.cols
  }

  /** The count of marks agrees with the history; a fresh board has it and
      marking keeps it. */
  predicate CountsAgree(b: BoardState) {
    b.markedCells == |b.orderedMoves|
  }

  lemma MarkKeepsCounts(b: BoardState, s: Symbol, m: Move)
    requires WellFormed(b) && InRange(b, m) && CountsAgree(b)
    ensures CountsAgree(Mark(b, s, m))
  {
  }

  /** Since marking does not validate, marking an occupied cell, whether it
      holds the same symbol or the other player's stone, adds a mark and a
      history entry although no empty cell was filled. */
  lemma MarkOccupiedKeepsEmptyCells(b: BoardState, s: Symbol, m: Move)
    requires WellFormed(b) && InRange(b, m) && At(b, m) != Empty
    ensures forall p :: p in EmptyCells(Mark(b, s, m)) <==> p in EmptyCells(b)
    ensures Mark(b, s, m).markedCells == b.markedCells + 1
  {
  }

  /** Every marked cell appears in the history. A fresh board has it and
      marking keeps it, so a board without history is empty. */
  ghost predicate HistoryCovers(b: BoardState)
    requires WellFormed(b)
  {
    forall m | InRange(b, m) && At(b, m) != Empty :: m in b.orderedMoves
  }

  lemma MarkKeepsHistory(b: BoardState, s: Symbol, m: Move)
    requires WellFormed(b) && InRange(b, m) && HistoryCovers(b)
    ensures HistoryCovers(Mark(b, s, m))
  {
  }

  /** On a board whose history covers its marks, an empty history means
      every cell is empty. */
  lemma NoHistoryMeansEmpty(b: BoardState, m: Move)
    requires WellFormed(b) && HistoryCovers(b) && b.orderedMoves == [] && InRange(b, m)
    ensures IsValidMove(b, m)
  {
  }

  /** The opponent of the opponent is the symbol itself. */
  lemma OpponentInvolution(s: Symbol)
    ensures Opponent(Opponent(s)) == s
  {
  }
}
