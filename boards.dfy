/** The mutable board (board.py, class Board): the grid, the mark count and
    the history are fields that mark_cell updates together; the loops of
    get_potential_moves, evaluate_direction and evaluate_board are proved
    against the functions of Cells, Lines, Neighbourhood and Evaluation. */
module Boards {
  import opened Cells
  import opened Lines
  import opened Neighbourhood
  import opened Evaluation

  class Board {
    const rows: nat
    const cols: nat
    const toWin: nat
    var cells: seq<seq<Cell>>
    var markedCells: nat
    var orderedMoves: seq<Move>

    /** The board's fields as a value. */
    function State(): BoardState
      reads this
    {
      BoardState(rows, cols, toWin, cells, markedCells, orderedMoves)
    }

    /** A square grid whose mark count agrees with the history. */
    predicate Valid()
      reads this
    {
      WellFormed(State()) && CountsAgree(State())
    }

    /** __init__: an empty grid built by create_board, no marks. */
    constructor (rows: nat, cols: nat, toWin: nat)
      requires rows == cols
      ensures Valid()
      ensures State() == NewBoard(rows, cols, toWin)
    {
      this.rows, this.cols, this.toWin := rows, cols, toWin;
      cells := EmptyGrid(rows, cols);
      markedCells := 0;
      orderedMoves := [];
    }

    /** copy.deepcopy: an independent board with the same fields. */
    constructor Copy(other: Board)
      requires other.Valid()
      ensures Valid()
      ensures State() == other.State()
    {
      rows, cols, toWin := other.rows, other.cols, other.toWin;
      cells := other.cells;
      markedCells := other.markedCells;
      orderedMoves := other.orderedMoves;
    }

    /** create_board: replaces the grid by an empty one and returns it. */
    method CreateBoard() returns (grid: seq<seq<Cell>>)
      requires Valid()
      modifies this
      ensures Valid()
      ensures grid == cells
      ensures forall m | InRange(State(), m) :: At(State(), m) == Empty
      ensures markedCells == old(markedCells) && orderedMoves == old(orderedMoves)
    {
      cells := EmptyGrid(rows, cols);
      grid := cells;
    }

    /** mark_cell: writes the symbol, counts the mark and records the move,
        without checking that the cell was empty. */
    method MarkCell(s: Symbol, m: Move)
      requires Valid() && InRange(State(), m)
      modifies this
      ensures Valid()
      ensures State() == Mark(old(State()), s, m)
    {
      MarkKeepsCounts(State(), s, m);
      cells := cells[m.row := cells[m.row][m.col := s]];
      markedCells := markedCells + 1;
      orderedMoves := orderedMoves + [m];
    }

    /** is_winning_move: marks a deep copy and asks whether it wins; the
        receiving board is not modified. */
    method IsWinningMove(s: Symbol, m: Move) returns (win: bool)
      requires Valid() && InRange(State(), m)
      ensures win <==> IsWinner(Mark(State(), s, m), s)
    {
      var temp := new Board.Copy(this);
      temp.MarkCell(s, m);
      win := IsWinner(temp.State(), s);
    }

    /** The first loop of get_potential_moves: every in-range empty
        8-neighbour of every played cell, added to a set (kept here in order
        of first insertion). */
    method CollectNeighbours() returns (potential: seq<Move>)
      requires Valid()
      ensures potential == NeighbourCells(State())
    {
      ghost var b := State();
      potential := [];
      var directions := Offsets;
      for k := 0 to |orderedMoves|
        invariant potential == Collected(b, k, 0)
      {
        for j := 0 to |directions|
          invariant potential == Collected(b, k, j)
        {
          var neighbor := Move(orderedMoves[k].row + directions[j].0, orderedMoves[k].col + directions[j].1);
          if !OutOfRange(State(), neighbor) && cells[neighbor.row][neighbor.col] == Empty {
            if neighbor !in potential {
              potential := potential + [neighbor];
            }
          }
        }
      }
    }

    /** The second loop of get_potential_moves: a move that wins at once is
        inserted at the front, any other appended. */
    method WinningFirst(s: Symbol, potential: seq<Move>) returns (sorted: seq<Move>)
      requires Valid() && AllInRange(State(), potential)
      ensures sorted == Arranged(potential, Winning(State(), s, potential), |potential|)
    {
      ghost var w := Winning(State(), s, potential);
      sorted := [];
      for i := 0 to |potential|
        invariant sorted == Arranged(potential, w, i)
      {
        var win := IsWinningMove(s, potential[i]);
        WinningMember(State(), s, potential, potential[i]);
        if win {
          sorted := [potential[i]] + sorted;
        } else {
          sorted := sorted + [potential[i]];
        }
      }
    }

    /** get_potential_moves. */
    method GetPotentialMoves(s: Symbol) returns (sorted: seq<Move>)
      requires Valid()
      ensures sorted == PotentialMoves(State(), s)
    {
      var potential := CollectNeighbours();
      assert AllInRange(State(), potential) by {
        forall i | 0 <= i < |potential| ensures InRange(State(), potential[i]) {
          assert potential[i] in potential;
        }
      }
      sorted := WinningFirst(s, potential);
    }

    /** One of the two scans of evaluate_direction: from the first neighbour
        on the side, count cells holding `s` while the shared counter stays
        below toWin; the side is blocked when the scan started on the board
        and stopped at the border or on a non-empty cell. */
    method ScanSide(first: Move, dr: int, dc: int, s: Symbol, counted: nat) returns (curLen: nat, blocked: bool)
      requires Valid() && counted <= toWin
      ensures curLen == counted + SideScan(State(), first, dr, dc, s, toWin - counted).0
      ensures blocked == SideBlocked(State(), first, SideScan(State(), first, dr, dc, s, toWin - counted).1)
    {
      ghost var b := State();
      curLen, blocked := counted, false;
      var maxRange := toWin;
      var head := first;
      if !OutOfRange(State(), head) {
        while cells[head.row][head.col] == s && curLen < maxRange
          invariant counted <= curLen <= maxRange && InRange(b, head)
          invariant Scan(b, first, dr, dc, s, toWin - counted)
            == (curLen - counted + Scan(b, head, dr, dc, s, toWin - curLen).0, Scan(b, head, dr, dc, s, toWin - curLen).1)
          decreases maxRange - curLen
        {
          curLen := curLen + 1;
          head := Move(head.row + dr, head.col + dc);
          if OutOfRange(State(), head) {
            break;
          }
        }
        if OutOfRange(State(), head) || cells[head.row][head.col] != Empty {
          blocked := true;
        }
      }
    }

    /** evaluate_direction: a forward and a backward scan sharing one
        counter capped by toWin, then the scoring table. */
    method EvaluateDirection(row: int, col: int, dr: int, dc: int, s: Symbol) returns (score: int)
      requires Valid()
      ensures score == DirectionScore(State(), row, col, dr, dc, s)
    {
      var curLen, blockedEnd := ScanSide(Move(row + dr, col + dc), dr, dc, s, 0);
      var blockedStart;
      curLen, blockedStart := ScanSide(Move(row - dr, col - dc), -dr, -dc, s, curLen);
      assert DirectionRun(State(), row, col, dr, dc, s) == RunInfo(curLen, blockedStart, blockedEnd);

      score := 0;
      if curLen == 4 {
        if !blockedStart && !blockedEnd {
          score := 10000;
        } else if !blockedStart || !blockedEnd {
          score := 5000;
        }
      } else if curLen == 3 {
        if !blockedStart && !blockedEnd {
          score := 1000;
        } else if !blockedStart || !blockedEnd {
          score := 500;
        }
      } else if curLen == 2 {
        if !blockedStart && !blockedEnd {
          score := 100;
        } else if !blockedStart || !blockedEnd {
          score := 50;
        }
      }
    }

    /** evaluate_line_with_defense: the player's direction score minus the
        opponent's. */
    method EvaluateLineWithDefense(row: int, col: int, dr: int, dc: int, p: Symbol, o: Symbol) returns (score: int)
      requires Valid()
      ensures score == LineScore(State(), row, col, dr, dc, p, o)
    {
      score := 0;
      var playerScore := EvaluateDirection(row, col, dr, dc, p);
      score := score + playerScore;
      var opponentScore := EvaluateDirection(row, col, dr, dc, o);
      score := score - opponentScore;
    }

    /** The innermost loop of evaluate_board, for one empty cell: the line
        score in each of the four directions whose key (row, col, direction)
        is not yet in the set of evaluated keys, and the set with those keys
        added. No key is ever found already present. */
    method EvaluateCell(row: int, col: int, p: Symbol, o: Symbol, alreadyEvaluated: set<LineKey>)
      returns (score: int, evaluated: set<LineKey>)
      requires Valid() && KeysBefore(alreadyEvaluated, row, col, 0)
      ensures score == CellScore(State(), row, col, p, o, |Directions|)
      ensures KeysBefore(evaluated, row, col + 1, 0)
    {
      score, evaluated := 0, alreadyEvaluated;
      var directions := Directions;
      for k := 0 to |directions|
        invariant score == CellScore(State(), row, col, p, o, k)
        invariant KeysBefore(evaluated, row, col, k)
      {
        var direction := directions[k];
        var lineKey := (row, col, direction);
        FreshKey(evaluated, row, col, k);
        if lineKey in evaluated {
          // never taken: each key is met once
          assert false;
          continue;
        }
        var lineScore := EvaluateLineWithDefense(row, col, direction.0, direction.1, p, o);
        score := score + lineScore;
        evaluated := evaluated + {lineKey};
      }
      NextCell(evaluated, row, col, |directions|);
    }

    /** evaluate_board: the win values first, then the line scores through
        every empty cell in the four directions. */
    method EvaluateBoard(p: Symbol, o: Symbol) returns (score: int)
      requires Valid()
      ensures score == BoardScore(State(), p, o)
    {
      ghost var b := State();
      score := 0;
      var alreadyEvaluated: set<LineKey> := {};
      if IsWinner(State(), p) {
        return WinScore;
      }
      if IsWinner(State(), o) {
        return -WinScore;
      }
      for row := 0 to rows
        invariant score == GridScore(b, p, o, row)
        invariant KeysBefore(alreadyEvaluated, row, 0, 0)
      {
        for col := 0 to cols
          invariant score == GridScore(b, p, o, row) + RowScore(b, row, p, o, col)
          invariant KeysBefore(alreadyEvaluated, row, col, 0)
        {
          if cells[row][col] != Empty {
            NextCell(alreadyEvaluated, row, col, 0);
            continue;
          }
          var cellScore;
          cellScore, alreadyEvaluated := EvaluateCell(row, col, p, o, alreadyEvaluated);
          score := score + cellScore;
        }
        NextRow(alreadyEvaluated, row, cols);
      }
    }
  }

  /** The key evaluate_board records for a scored line. */
  type LineKey = (int, int, (int, int))

  /** Every key in `keys` belongs to a cell before (row, col) in row-major
      order, or to (row, col) itself and one of its first `k` directions. */
  predicate KeysBefore(keys: set<LineKey>, row: int, col: int, k: nat)
    requires k <= |Directions|
  {
    forall key | key in keys ::
      key.0 < row || (key.0 == row && key.1 < col) || (key.0 == row && key.1 == col && key.2 in Directions[..k])
  }

  /** The key of the next direction has not been evaluated yet, and adding
      it moves the frontier one direction on. */
  lemma FreshKey(keys: set<LineKey>, row: int, col: int, k: nat)
    requires k < |Directions| && KeysBefore(keys, row, col, k)
    ensures (row, col, Directions[k]) !in keys
    ensures KeysBefore(keys + {(row, col, Directions[k])}, row, col, k + 1)
  {
    assert Directions[k] !in Directions[..k];
    assert Directions[..k + 1] == Directions[..k] + [Directions[k]];
  }

  lemma NextCell(keys: set<LineKey>, row: int, col: int, k: nat)
    requires k <= |Directions| && KeysBefore(keys, row, col, k)
    ensures KeysBefore(keys, row, col + 1, 0)
  {
  }

  lemma NextRow(keys: set<LineKey>, row: int, col: int)
    requires KeysBefore(keys, row, col, 0)
    ensures KeysBefore(keys, row + 1, 0, 0)
  {
  }
}
