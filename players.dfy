/** The players (player.py): a plain player, and the AI player whose
    minimax runs over deep copies of the board and is proved equal to the
    search of module Search. */
module Players {
  import opened Cells
  import opened Lines
  import opened Neighbourhood
  import opened Evaluation
  import opened Search
  import opened Boards

  /** Player: a name and a symbol. */
  class Player {
    const name: string
    const symbol: Symbol

    constructor (name: string, symbol: Symbol)
      ensures this.name == name && this.symbol == symbol
    {
      this.name, this.symbol := name, symbol;
    }
  }

  /** What make_move does with a board: return a move, pick at random among
      the listed cells (difficulty 0), raise ValueError because the search
      found no move, or fall through and return None (any other
      difficulty). */
  datatype Decision = Chosen(move: Move) | RandomFrom(cells: seq<Move>) | SearchFailed | NoDecision

  /** The search make_move runs: depth 0 of 2, full window, maximizing. */
  const SearchDepth: nat := 2

  /** make_move as a function of the board. */
  function Decide(b: BoardState, me: Symbol, opp: Symbol, difficulty: int): Decision
    requires WellFormed(b)
  {
    if difficulty == 0 then RandomFrom(EmptyCells(b))
    else if difficulty == 1 || difficulty == 2 then
      if b.markedCells == 0 then Chosen(Move(b.rows / 2, b.cols / 2))
      else
        var move := AlphaBeta(b, me, opp, 0, SearchDepth, NegInf, PosInf, true).1;
        if move.None? then SearchFailed else Chosen(move.value)
    else NoDecision
  }

  /** AI_Player: a player that chooses its moves by search. */
  class AIPlayer {
    const name: string
    const symbol: Symbol
    const opponentSymbol: Symbol
    const difficulty: int

    /** __init__: the opponent holds "O" when the player holds "X", and "X"
        otherwise; the difficulty defaults to 2. */
    constructor (name: string, symbol: Symbol, difficulty: int := 2)
      ensures this.name == name && this.symbol == symbol && this.difficulty == difficulty
      ensures opponentSymbol == Opponent(symbol) && opponentSymbol != symbol
    {
      this.name, this.symbol, this.difficulty := name, symbol, difficulty;
      opponentSymbol := if symbol == X then O else X;
    }

    /** minimax: a leaf is scored by evaluate_board; otherwise every
        candidate is tried on a deep copy of the board. The board passed in
        is not modified. */
    method Minimax(board: Board, depth: nat, maxDepth: nat, alpha: Score, beta: Score, maximizing: bool)
      returns (score: Score, bestMove: Option<Move>)
      requires board.Valid() && depth <= maxDepth
      ensures (score, bestMove) == AlphaBeta(board.State(), symbol, opponentSymbol, depth, maxDepth, alpha, beta, maximizing)
      decreases maxDepth - depth, 1
    {
      if depth == maxDepth || IsTerminal(board.State()) {
        var boardScore := board.EvaluateBoard(symbol, opponentSymbol);
        return Fin(boardScore), None;
      }
      var potentialMoves;
      if board.markedCells != 0 {
        potentialMoves := board.GetPotentialMoves(symbol);
      } else {
        potentialMoves := EmptyCells(board.State());
      }
      assert potentialMoves == Candidates(board.State(), symbol);
      if maximizing {
        score, bestMove := MaxSearch(board, depth, maxDepth, potentialMoves, alpha, beta);
      } else {
        score, bestMove := MinSearch(board, depth, maxDepth, potentialMoves, alpha, beta);
      }
    }

    /** The maximizing loop of minimax. */
    method MaxSearch(board: Board, depth: nat, maxDepth: nat, potentialMoves: seq<Move>, alpha: Score, beta: Score)
      returns (maxEval: Score, bestMove: Option<Move>)
      requires board.Valid() && depth < maxDepth && AllInRange(board.State(), potentialMoves)
      ensures (maxEval, bestMove)
        == MaxLoop(board.State(), symbol, opponentSymbol, depth, maxDepth, potentialMoves, NegInf, None, alpha, beta)
      decreases maxDepth - depth, 0
    {
      ghost var b := board.State();
      ghost var result := MaxLoop(b, symbol, opponentSymbol, depth, maxDepth, potentialMoves, NegInf, None, alpha, beta);
      maxEval, bestMove := NegInf, None;
      var a := alpha;
      for i := 0 to |potentialMoves|
        invariant AllInRange(b, potentialMoves[i..])
        invariant MaxLoop(b, symbol, opponentSymbol, depth, maxDepth, potentialMoves[i..], maxEval, bestMove, a, beta) == result
      {
        var move := potentialMoves[i];
        assert potentialMoves[i..][1..] == potentialMoves[i + 1..];
        var tempBoard := new Board.Copy(board);
        tempBoard.MarkCell(symbol, move);
        var evaluation, _ := Minimax(tempBoard, depth + 1, maxDepth, a, beta, false);
        if Lt(maxEval, evaluation) {
          maxEval := evaluation;
          bestMove := Some(move);
        }
        a := Max(a, maxEval);
        if Le(beta, a) {
          break;
        }
      }
    }

    /** The minimizing loop of minimax. */
    method MinSearch(board: Board, depth: nat, maxDepth: nat, potentialMoves: seq<Move>, alpha: Score, beta: Score)
      returns (minEval: Score, bestMove: Option<Move>)
      requires board.Valid() && depth < maxDepth && AllInRange(board.State(), potentialMoves)
      ensures (minEval, bestMove)
        == MinLoop(board.State(), symbol, opponentSymbol, depth, maxDepth, potentialMoves, PosInf, None, alpha, beta)
      decreases maxDepth - depth, 0
    {
      ghost var b := board.State();
      ghost var result := MinLoop(b, symbol, opponentSymbol, depth, maxDepth, potentialMoves, PosInf, None, alpha, beta);
      minEval, bestMove := PosInf, None;
      var bt := beta;
      for i := 0 to |potentialMoves|
        invariant AllInRange(b, potentialMoves[i..])
        invariant MinLoop(b, symbol, opponentSymbol, depth, maxDepth, potentialMoves[i..], minEval, bestMove, alpha, bt) == result
      {
        var move := potentialMoves[i];
        assert potentialMoves[i..][1..] == potentialMoves[i + 1..];
        var tempBoard := new Board.Copy(board);
        tempBoard.MarkCell(opponentSymbol, move);
        var evaluation, _ := Minimax(tempBoard, depth + 1, maxDepth, alpha, bt, true);
        if Lt(evaluation, minEval) {
          minEval := evaluation;
          bestMove := Some(move);
        }
        bt := Min(bt, minEval);
        if Le(bt, alpha) {
          break;
        }
      }
    }

    /** make_move: a random empty cell at difficulty 0; at difficulty 1 or 2
        the centre on an unmarked board, otherwise the move of a two-ply
        search, failing when it finds none. */
    method MakeMove(board: Board) returns (d: Decision)
      requires board.Valid()
      ensures d == Decide(board.State(), symbol, opponentSymbol, difficulty)
    {
      if difficulty == 0 {
        return RandomFrom(EmptyCells(board.State()));
      } else if difficulty == 1 || difficulty == 2 {
        if board.markedCells == 0 {
          return Chosen(Move(board.rows / 2, board.cols / 2));
        }
        var _, move := Minimax(board, 0, SearchDepth, NegInf, PosInf, true);
        if move.None? {
          return SearchFailed;
        }
        return Chosen(move.value);
      }
      return NoDecision;
    }
  }

  /** The first move of a search-based player on a fresh board is the
      centre cell, which is free. */
  lemma FirstMoveIsCentre(b: BoardState, me: Symbol, opp: Symbol, difficulty: int)
    requires WellFormed(b) && CountsAgree(b) && HistoryCovers(b) && b.rows > 0
    requires difficulty == 1 || difficulty == 2
    requires b.markedCells == 0
    ensures Decide(b, me, opp, difficulty) == Chosen(Move(b.rows / 2, b.cols / 2))
    ensures IsValidMove(b, Move(b.rows / 2, b.cols / 2))
  {
    NoHistoryMeansEmpty(b, Move(b.rows / 2, b.cols / 2));
  }

  /** Once a cell is marked, a search-based player chooses an empty cell
      among the candidates, and an optimal one: its two-ply minimax value is
      the value of the position, and every candidate listed before it has a
      strictly smaller value. */
  lemma ChosenMoveOptimal(b: BoardState, me: Symbol, opp: Symbol, difficulty: int)
    requires WellFormed(b) && b.markedCells != 0
    ensures Decide(b, me, opp, difficulty).Chosen? ==>
      var m := Decide(b, me, opp, difficulty).move;
      && IsValidMove(b, m)
      && m in Candidates(b, me)
      && MaxChildValue(b, me, opp, 0, SearchDepth, m) == Minimax(b, me, opp, 0, SearchDepth, true)
      && exists k | 0 <= k < |Candidates(b, me)| :: && Candidates(b, me)[k] == m
           && forall j | 0 <= j < k ::
                Lt(MaxChildValue(b, me, opp, 0, SearchDepth, Candidates(b, me)[j]), MaxChildValue(b, me, opp, 0, SearchDepth, m))
  {
    RootMoveOptimal(b, me, opp, 0, SearchDepth);
    if !Leaf(b, 0, SearchDepth) {
      RootMoveFirst(b, me, opp, 0, SearchDepth);
    }
  }

  /** Once a cell is marked, a search-based player fails exactly when the
      board is already won or no cell next to a played one is free. */
  lemma SearchFailsIff(b: BoardState, me: Symbol, opp: Symbol, difficulty: int)
    requires WellFormed(b) && b.markedCells != 0
    requires difficulty == 1 || difficulty == 2
    ensures Decide(b, me, opp, difficulty) == SearchFailed <==> IsTerminal(b) || PotentialMoves(b, me) == []
  {
    SearchFindsMove(b, me, opp, 0, SearchDepth, NegInf, PosInf);
  }
}
