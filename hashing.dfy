/** Zobrist hashing of a grid (hashing.py): a table of random values per
    cell and symbol, and the XOR of the entries of the occupied cells. */
module Hashing {
  import opened Cells

  /** A hash value: a non-negative integer of unbounded size, as in the
      program. */
  type HashValue = nat

  /** A Zobrist table: list i, position j, symbol k. */
  type Table = seq<seq<seq<HashValue>>>

  /** Bitwise exclusive or of non-negative integers, the program's `^`. */
  function Xor(a: nat, b: nat): nat
    decreases a + b
  {
    if a == 0 then b
    else if b == 0 then a
    else 2 * Xor(a / 2, b / 2) + (if a % 2 == b % 2 then 0 else 1)
  }

  /** The lowest bit of an exclusive or, and the rest. */
  lemma XorUnfold(a: nat, b: nat)
    ensures Xor(a, b) == 2 * Xor(a / 2, b / 2) + (if a % 2 == b % 2 then 0 else 1)
  {
    if a == 0 {
      assert Xor(a / 2, b / 2) == b / 2;
    } else if b == 0 {
      assert Xor(a / 2, b / 2) == a / 2;
    }
  }

  lemma XorZero(a: nat)
    ensures Xor(a, 0) == a && Xor(0, a) == a
  {
  }

  lemma {:induction false} XorSelf(a: nat)
    ensures Xor(a, a) == 0
    decreases a
  {
    if a != 0 {
      XorSelf(a / 2);
    }
  }

  lemma {:induction false} XorCommutes(a: nat, b: nat)
    ensures Xor(a, b) == Xor(b, a)
    decreases a + b
  {
    if a != 0 && b != 0 {
      XorCommutes(a / 2, b / 2);
    }
  }

  lemma {:induction false} XorAssociates(a: nat, b: nat, c: nat)
    ensures Xor(Xor(a, b), c) == Xor(a, Xor(b, c))
    decreases a + b + c
  {
    if a + b + c != 0 {
      var ab, bc := Xor(a, b), Xor(b, c);
      XorUnfold(a, b);
      XorUnfold(b, c);
      XorUnfold(ab, c);
      XorUnfold(a, bc);
      assert ab / 2 == Xor(a / 2, b / 2);
      assert bc / 2 == Xor(b / 2, c / 2);
      XorAssociates(a / 2, b / 2, c / 2);
    }
  }

  /** Xor(a, b) and then c, regrouped. */
  lemma XorRegroup(a: nat, b: nat, c: nat)
    ensures Xor(Xor(a, b), c) == Xor(a, Xor(b, c))
    ensures Xor(Xor(a, b), c) == Xor(Xor(a, c), b)
  {
    XorAssociates(a, b, c);
    XorCommutes(b, c);
    XorAssociates(a, c, b);
  }

  /** Replacing c by c' inside an exclusive or is an exclusive or with
      Xor(c, c'); and XOR with c twice cancels. */
  lemma XorReplace(a: nat, c: nat, c': nat)
    ensures Xor(Xor(a, 0), c') == Xor(Xor(a, c), Xor(c, c'))
    ensures Xor(Xor(a, c), c) == a
  {
    XorZero(a);
    XorAssociates(a, c, Xor(c, c'));
    XorAssociates(c, c, c');
    XorSelf(c);
    XorZero(c');
    XorAssociates(a, c, c);
    XorZero(a);
  }

  /** The largest value randomInt can draw. */
  const MaxDraw: nat := 0x1_0000_0000_0000_0000

  /** index_of: "X" is 0, "O" is 1, anything else (the empty cell 0) is -1. */
  function IndexOf(c: Cell): (r: int)
    ensures r == 0 <==> c == X
    ensures r == 1 <==> c == O
    ensures r == -1 <==> c == Empty
  {
    match c
    case X => 0
    case O => 1
    case Empty => -1
  }

  /** The width of a grid: the length of its first list. */
  function Width(grid: seq<seq<Cell>>): nat {
    if |grid| == 0 then 0 else |grid[0]|
  }

  /** Every list of the grid is as long as the first. */
  predicate Rectangular(grid: seq<seq<Cell>>) {
    forall i | 0 <= i < |grid| :: |grid[i]| == Width(grid)
  }

  /** The table of initTable(rows, cols): `cols` lists of `rows` lists of
      two values each. */
  predicate TableShape(t: Table, rows: nat, cols: nat) {
    && |t| == cols
    && (forall i | 0 <= i < cols :: |t[i]| == rows)
    && (forall i, j | 0 <= i < cols && 0 <= j < rows :: |t[i][j]| == 2)
  }

  /** Positions 0 to n - 1 of a list of the table have entries for both
      symbols. */
  predicate ListFits(tl: seq<seq<HashValue>>, n: nat) {
    |tl| >= n && forall j | 0 <= j < n :: |tl[j]| >= 2
  }

  /** The table has an entry for every cell of the grid and both symbols. */
  predicate TableFits(t: Table, grid: seq<seq<Cell>>) {
    |t| >= |grid| && forall i | 0 <= i < |grid| :: ListFits(t[i], Width(grid))
  }

  /** initTable, with the random draws taken as a parameter: draw(i, j, k)
      is the value for list i, position j, symbol k, from 0 to 2^64. */
  function InitTable(rows: nat, cols: nat, draw: (nat, nat, nat) -> HashValue): (t: Table)
    requires forall i: nat, j: nat, k: nat :: draw(i, j, k) <= MaxDraw
    ensures TableShape(t, rows, cols)
    ensures forall i, j, k | 0 <= i < cols && 0 <= j < rows && 0 <= k < 2 :: t[i][j][k] == draw(i, j, k) <= MaxDraw
  {
    seq(cols, i requires 0 <= i < cols => TableList(i, rows, draw))
  }

  /** List i of the table: `rows` pairs of draws. */
  function TableList(i: nat, rows: nat, draw: (nat, nat, nat) -> HashValue): (l: seq<seq<HashValue>>)
    ensures |l| == rows
    ensures forall j, k | 0 <= j < rows && 0 <= k < 2 :: |l[j]| == 2 && l[j][k] == draw(i, j, k)
  {
    seq(rows, j requires 0 <= j < rows => [draw(i, j, 0), draw(i, j, 1)])
  }

  /** A table built for a square board fits its grid. */
  lemma TableFitsBoard(t: Table, b: BoardState)
    requires WellFormed(b) && TableShape(t, b.rows, b.cols)
    ensures Rectangular(b.cells) && TableFits(t, b.cells)
  {
  }

  /** What a cell adds to the hash: its entry for the symbol, nothing when
      it is empty. */
  function CellHash(c: Cell, entries: seq<HashValue>): HashValue
    requires |entries| >= 2
  {
    var piece := IndexOf(c);
    if piece == -1 then 0 else entries[piece]
  }

  /** The XOR of what the first `j` cells of a list add. */
  function RowHash(row: seq<Cell>, tl: seq<seq<HashValue>>, j: nat): HashValue
    requires j <= |row| && ListFits(tl, j)
  {
    if j == 0 then 0 else Xor(RowHash(row, tl, j - 1), CellHash(row[j - 1], tl[j - 1]))
  }

  /** The XOR of the hashes of the first `i` lists. */
  function GridHash(grid: seq<seq<Cell>>, t: Table, i: nat): HashValue
    requires Rectangular(grid) && TableFits(t, grid)
    requires i <= |grid|
  {
    if i == 0 then 0 else Xor(GridHash(grid, t, i - 1), RowHash(grid[i - 1], t[i - 1], Width(grid)))
  }

  /** The hash of the whole grid. */
  function Hash(grid: seq<seq<Cell>>, t: Table): HashValue
    requires Rectangular(grid) && TableFits(t, grid)
  {
    GridHash(grid, t, |grid|)
  }

  /** compute_hash: the nested loop folding the entries of the occupied
      cells into `h` by XOR. */
  method ComputeHash(grid: seq<seq<Cell>>, t: Table) returns (h: HashValue)
    requires Rectangular(grid) && TableFits(t, grid)
    ensures h == Hash(grid, t)
  {
    h := 0;
    for i := 0 to |grid|
      invariant h == GridHash(grid, t, i)
    {
      ghost var before := h;
      XorZero(before);
      for j := 0 to |grid[0]|
        invariant h == Xor(before, RowHash(grid[i], t[i], j))
      {
        var piece := IndexOf(grid[i][j]);
        XorRegroup(before, RowHash(grid[i], t[i], j), CellHash(grid[i][j], t[i][j]));
        XorZero(RowHash(grid[i], t[i], j));
        if piece != -1 {
          h := Xor(h, t[i][j][piece]);
        }
      }
    }
  }

  /** A grid without marks hashes to 0. */
  lemma {:induction false} EmptyGridHashesToZero(grid: seq<seq<Cell>>, t: Table, i: nat)
    requires Rectangular(grid) && TableFits(t, grid) && i <= |grid|
    requires forall r, c | 0 <= r < |grid| && 0 <= c < Width(grid) :: grid[r][c] == Empty
    ensures GridHash(grid, t, i) == 0
  {
    if i > 0 {
      EmptyGridHashesToZero(grid, t, i - 1);
      EmptyRowHashesToZero(grid[i - 1], t[i - 1], Width(grid));
    }
  }

  lemma {:induction false} EmptyRowHashesToZero(row: seq<Cell>, tl: seq<seq<HashValue>>, j: nat)
    requires j <= |row| && ListFits(tl, j)
    requires forall c | 0 <= c < |row| :: row[c] == Empty
    ensures RowHash(row, tl, j) == 0
  {
    if j > 0 {
      EmptyRowHashesToZero(row, tl, j - 1);
    }
  }

  /** A fresh board hashes to 0. */
  lemma NewBoardHashesToZero(n: nat, toWin: nat, t: Table)
    requires TableShape(t, n, n)
    ensures Rectangular(NewBoard(n, n, toWin).cells) && TableFits(t, NewBoard(n, n, toWin).cells)
    ensures Hash(NewBoard(n, n, toWin).cells, t) == 0
  {
    var b := NewBoard(n, n, toWin);
    TableFitsBoard(t, b);
    EmptyGridHashesToZero(b.cells, t, |b.cells|);
  }

  /** The grid with cell (i, j) set to `c`. */
  function SetCell(grid: seq<seq<Cell>>, i: nat, j: nat, c: Cell): (g: seq<seq<Cell>>)
    requires Rectangular(grid) && i < |grid| && j < Width(grid)
    ensures Rectangular(g) && |g| == |grid| && Width(g) == Width(grid)
    ensures g[i] == grid[i][j := c]
    ensures forall r | 0 <= r < |grid| && r != i :: g[r] == grid[r]
  {
    grid[i := grid[i][j := c]]
  }

  /** Changing one cell of a list changes its hash by the XOR of the old and
      the new contribution, once the scan has passed the cell. */
  lemma {:induction false} RowHashUpdate(row: seq<Cell>, tl: seq<seq<HashValue>>, j: nat, c: Cell, n: nat)
    requires j < |row| && n <= |row| && ListFits(tl, |row|)
    ensures RowHash(row[j := c], tl, n)
      == Xor(RowHash(row, tl, n), if j < n then Xor(CellHash(row[j], tl[j]), CellHash(c, tl[j])) else 0)
  {
    if n > 0 {
      RowHashUpdate(row, tl, j, c, n - 1);
      var prev := RowHash(row, tl, n - 1);
      var here := CellHash(row[n - 1], tl[n - 1]);
      if j == n - 1 {
        XorReplace(prev, here, CellHash(c, tl[j]));
      } else {
        var delta := if j < n - 1 then Xor(CellHash(row[j], tl[j]), CellHash(c, tl[j])) else 0;
        XorRegroup(prev, delta, here);
      }
    }
  }

  /** Changing one cell changes the hash of the first `n` lists by the XOR
      of the old and the new contribution, once the scan has passed it. */
  lemma {:induction false} GridHashUpdate(grid: seq<seq<Cell>>, t: Table, i: nat, j: nat, c: Cell, n: nat)
    requires Rectangular(grid) && TableFits(t, grid) && i < |grid| && j < Width(grid) && n <= |grid|
    ensures TableFits(t, SetCell(grid, i, j, c))
    ensures GridHash(SetCell(grid, i, j, c), t, n)
      == Xor(GridHash(grid, t, n), if i < n then Xor(CellHash(grid[i][j], t[i][j]), CellHash(c, t[i][j])) else 0)
  {
    if n > 0 {
      GridHashUpdate(grid, t, i, j, c, n - 1);
      var g := SetCell(grid, i, j, c);
      var prev := GridHash(grid, t, n - 1);
      var row := RowHash(grid[n - 1], t[n - 1], Width(grid));
      var delta := Xor(CellHash(grid[i][j], t[i][j]), CellHash(c, t[i][j]));
      if i == n - 1 {
        RowHashUpdate(grid[i], t[i], j, c, Width(grid));
        XorZero(prev);
        XorRegroup(prev, row, delta);
      } else {
        XorRegroup(prev, if i < n - 1 then delta else 0, row);
      }
    }
  }

  /** Placing a symbol on an empty cell XORs its entry into the hash. */
  lemma PlaceToggles(grid: seq<seq<Cell>>, t: Table, i: nat, j: nat, s: Symbol)
    requires Rectangular(grid) && TableFits(t, grid) && i < |grid| && j < Width(grid)
    requires grid[i][j] == Empty
    ensures TableFits(t, SetCell(grid, i, j, s))
    ensures Hash(SetCell(grid, i, j, s), t) == Xor(Hash(grid, t), t[i][j][IndexOf(s)])
  {
    GridHashUpdate(grid, t, i, j, s, |grid|);
    XorZero(t[i][j][IndexOf(s)]);
  }

  /** Clearing a marked cell XORs its entry out again. */
  lemma ClearToggles(grid: seq<seq<Cell>>, t: Table, i: nat, j: nat)
    requires Rectangular(grid) && TableFits(t, grid) && i < |grid| && j < Width(grid)
    requires grid[i][j] != Empty
    ensures TableFits(t, SetCell(grid, i, j, Empty))
    ensures Hash(SetCell(grid, i, j, Empty), t) == Xor(Hash(grid, t), t[i][j][IndexOf(grid[i][j])])
  {
    GridHashUpdate(grid, t, i, j, Empty, |grid|);
    XorZero(t[i][j][IndexOf(grid[i][j])]);
  }

  /** Making a move and undoing it restores the hash, computed through the
      two XOR updates rather than from the restored grid. */
  lemma MakeUndoRestores(grid: seq<seq<Cell>>, t: Table, i: nat, j: nat, s: Symbol)
    requires Rectangular(grid) && TableFits(t, grid) && i < |grid| && j < Width(grid)
    requires grid[i][j] == Empty
    ensures Xor(Xor(Hash(grid, t), t[i][j][IndexOf(s)]), t[i][j][IndexOf(s)]) == Hash(grid, t)
    ensures TableFits(t, SetCell(SetCell(grid, i, j, s), i, j, Empty))
    ensures Hash(SetCell(SetCell(grid, i, j, s), i, j, Empty), t) == Hash(grid, t)
  {
    var g := SetCell(grid, i, j, s);
    PlaceToggles(grid, t, i, j, s);
    ClearToggles(g, t, i, j);
    XorReplace(Hash(grid, t), t[i][j][IndexOf(s)], 0);
  }

  /** mark_cell on an empty cell XORs the symbol's entry for the cell into
      the board's hash. */
  lemma MarkToggles(b: BoardState, t: Table, s: Symbol, m: Move)
    requires WellFormed(b) && TableShape(t, b.rows, b.cols) && InRange(b, m) && At(b, m) == Empty
    ensures Rectangular(b.cells) && TableFits(t, b.cells)
    ensures Rectangular(Mark(b, s, m).cells) && TableFits(t, Mark(b, s, m).cells)
    ensures Hash(Mark(b, s, m).cells, t) == Xor(Hash(b.cells, t), t[m.row][m.col][IndexOf(s)])
  {
    TableFitsBoard(t, b);
    PlaceToggles(b.cells, t, m.row, m.col, s);
    assert Mark(b, s, m).cells == SetCell(b.cells, m.row, m.col, s);
  }

  /** Marks on distinct cells commute: marking two different cells in
      either order gives the same grid, and so the same hash. */
  lemma MarksOnDistinctCellsCommute(b: BoardState, t: Table, s1: Symbol, m1: Move, s2: Symbol, m2: Move)
    requires WellFormed(b) && TableShape(t, b.rows, b.cols)
    requires InRange(b, m1) && InRange(b, m2) && m1 != m2
    ensures var b12, b21 := Mark(Mark(b, s1, m1), s2, m2), Mark(Mark(b, s2, m2), s1, m1);
      && b12.cells == b21.cells
      && Rectangular(b12.cells) && TableFits(t, b12.cells)
      && Hash(b12.cells, t) == Hash(b21.cells, t)
  {
    var b12, b21 := Mark(Mark(b, s1, m1), s2, m2), Mark(Mark(b, s2, m2), s1, m1);
    forall r | 0 <= r < |b12.cells| ensures b12.cells[r] == b21.cells[r] {
      assert forall c | 0 <= c < b.rows :: b12.cells[r][c] == b21.cells[r][c] by {
        forall c | 0 <= c < b.rows ensures b12.cells[r][c] == b21.cells[r][c] {
          assert At(b12, Move(r, c)) == At(b21, Move(r, c));
        }
      }
    }
    TableFitsBoard(t, b12);
  }
}
