/** The integer layout arithmetic of the window (graphics.py, class
    Graphics): the size of a cell, the width of the lines, the size of the
    window and where a cross or a circle is drawn in a cell. Every operand
    here is non-negative, so Python's floor division `//` is Dafny's `/`. */
module Layout {
  import opened Boards

  /** The board's largest side is drawn in about this many pixels. */
  const MaxBoardPixelSize: nat := 800
  const MinCellSize: nat := 40
  const MaxCellSize: nat := 700
  const MinLineWidth: nat := 1
  const MaxLineWidth: nat := 10

  function Larger(a: int, b: int): int {
    if a >= b then a else b
  }

  function Smaller(a: int, b: int): int {
    if a <= b then a else b
  }

  /** calculate_cell_size: 800 pixels shared by the larger side, clamped to
      40..700. An empty board divides by zero in the program. */
  function CellSize(rows: nat, cols: nat): (size: nat)
    requires Larger(rows, cols) > 0
    ensures MinCellSize <= size <= MaxCellSize
  {
    Smaller(Larger(MaxBoardPixelSize / Larger(rows, cols), MinCellSize), MaxCellSize)
  }

  /** For a larger side from 2 to 20 the clamps do not bite and the cell is
      800 // n pixels; from 20 on it is the minimum of 40; a single row and
      column give the maximum of 700. */
  lemma CellSizeByLargerSide(rows: nat, cols: nat)
    requires Larger(rows, cols) > 0
    ensures var n := Larger(rows, cols);
      && (2 <= n <= 20 ==> CellSize(rows, cols) == MaxBoardPixelSize / n)
      && (n >= 20 ==> CellSize(rows, cols) == MinCellSize)
      && (n == 1 ==> CellSize(rows, cols) == MaxCellSize)
  {
    var n := Larger(rows, cols);
    if 2 <= n <= 20 {
      DivBounds(n);
    } else if n > 20 {
      assert MaxBoardPixelSize / n <= MaxBoardPixelSize / 20 by {
        DivMonotone(n);
      }
    }
  }

  /** 800 // n lies between 40 and 400 for n from 2 to 20. */
  lemma {:induction false} DivBounds(n: nat)
    requires 2 <= n <= 20
    ensures MinCellSize <= MaxBoardPixelSize / n <= 400
  {
    assert n * 40 <= 800;
    assert 800 < (800 / n + 1) * n;
    assert (800 / n) * n <= 800;
  }

  /** A larger side than 20 gives at most 800 // 20 = 40 pixels. */
  lemma {:induction false} DivMonotone(n: nat)
    requires n > 20
    ensures MaxBoardPixelSize / n <= 40
  {
    assert (800 / n) * n <= 800;
  }

  /** calculate_line_width: a fifteenth of the cell, clamped to 1..10. */
  function LineWidth(cellSize: nat): (width: nat)
    ensures MinLineWidth <= width <= MaxLineWidth
  {
    Smaller(Larger(cellSize / 15, MinLineWidth), MaxLineWidth)
  }

  /** For every cell size calculate_cell_size can return, the lines are at
      least two pixels wide. */
  lemma LineWidthOfCells(cellSize: nat)
    requires MinCellSize <= cellSize <= MaxCellSize
    ensures 2 <= LineWidth(cellSize) <= MaxLineWidth
    ensures cellSize >= 150 ==> LineWidth(cellSize) == MaxLineWidth
  {
  }

  /** The 19 by 19 board the program opens with: cells of 42 pixels, lines
      2 pixels wide, a window of 798 by 798 pixels. */
  lemma DefaultBoardLayout()
    ensures CellSize(19, 19) == 42 && LineWidth(42) == 2 && 19 * CellSize(19, 19) == 798
  {
  }

  /** A pixel position, x to the right and y down. */
  datatype Point = Point(x: int, y: int)

  /** A straight stroke from `start` to `end`. */
  datatype Stroke = Stroke(start: Point, end: Point, width: int)

  /** The two strokes of a cross: the descending diagonal, then the
      ascending one. */
  datatype Cross = Cross(desc: Stroke, asc: Stroke)

  /** A ring around `centre`. */
  datatype Ring = Ring(centre: Point, radius: int, width: int)

  /** draw_cross: both diagonals of the cell at (`row`, `col`), a fifth of
      the cell in from each corner, drawn twice as wide as the grid lines. */
  function CrossAt(cellSize: nat, lineWidth: nat, row: nat, col: nat): Cross {
    var offset := cellSize / 5;
    var left, top := col * cellSize, row * cellSize;
    Cross(
      Stroke(Point(left + offset, top + offset), Point(left + cellSize - offset, top + cellSize - offset), lineWidth * 2),
      Stroke(Point(left + offset, top + cellSize - offset), Point(left + cellSize - offset, top + offset), lineWidth * 2))
  }

  /** draw_circle: a ring centred in the cell at (`row`, `col`) with a
      radius of a third of the cell. */
  function RingAt(cellSize: nat, lineWidth: nat, row: nat, col: nat): Ring {
    var half := cellSize / 2;
    Ring(Point(col * cellSize + half, row * cellSize + half), cellSize / 3, lineWidth * 2)
  }

  /** The pixel square of the cell at (`row`, `col`) holds `p`. */
  predicate InCell(p: Point, cellSize: nat, row: nat, col: nat) {
    col * cellSize <= p.x <= col * cellSize + cellSize && row * cellSize <= p.y <= row * cellSize + cellSize
  }

  /** Every end of a cross lies in its cell; each stroke runs corner to
      corner, symmetric about the centre of the cell, and the two strokes
      mirror each other top to bottom. */
  lemma CrossInsideCell(cellSize: nat, lineWidth: nat, row: nat, col: nat)
    ensures var c := CrossAt(cellSize, lineWidth, row, col);
      && InCell(c.desc.start, cellSize, row, col) && InCell(c.desc.end, cellSize, row, col)
      && InCell(c.asc.start, cellSize, row, col) && InCell(c.asc.end, cellSize, row, col)
      && c.desc.start.x + c.desc.end.x == 2 * col * cellSize + cellSize
      && c.desc.start.y + c.desc.end.y == 2 * row * cellSize + cellSize
      && (c.desc.start.x < c.desc.end.x <==> cellSize > 0)
      && c.asc.start.x == c.desc.start.x && c.asc.end.x == c.desc.end.x
      && c.asc.start.y == c.desc.end.y && c.asc.end.y == c.desc.start.y
  {
  }

  /** A ring stays within its cell: its centre is at least a radius away
      from every side. */
  lemma RingInsideCell(cellSize: nat, lineWidth: nat, row: nat, col: nat)
    ensures var r := RingAt(cellSize, lineWidth, row, col);
      && r.radius >= 0
      && InCell(Point(r.centre.x - r.radius, r.centre.y - r.radius), cellSize, row, col)
      && InCell(Point(r.centre.x + r.radius, r.centre.y + r.radius), cellSize, row, col)
  {
  }

  /** The window of a board: its cell size, line width and pixel size. */
  class Graphics {
    const board: Board
    const cellSize: nat
    const lineWidth: nat
    const width: nat
    const height: nat

    /** __init__: the cell size and the line width from the board's
        dimensions, then a window of `cols` by `rows` cells. */
    constructor (board: Board)
      requires Larger(board.rows, board.cols) > 0
      ensures this.board == board
      ensures cellSize == CellSize(board.rows, board.cols) && lineWidth == LineWidth(cellSize)
      ensures width == board.cols * cellSize && height == board.rows * cellSize
    {
      this.board := board;
      var size := CellSize(board.rows, board.cols);
      cellSize := size;
      lineWidth := LineWidth(size);
      width := board.cols * size;
      height := board.rows * size;
    }
  }
}
