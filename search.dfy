/** The search of AI_Player.minimax (player.py) as functions over board
    values: the depth-bounded search with alpha-beta cut-offs the program
    runs, the same search without cut-offs, and the fail-soft relation
    between the two. */
module Search {
  import opened Cells
  import opened Lines
  import opened Neighbourhood
  import opened Evaluation

  /** A search value: the program's `float("-inf")`, an integer, or
      `float("inf")`. */
  datatype Score = NegInf | Fin(value: int) | PosInf

  /** The order of search values. */
  predicate Le(a: Score, b: Score) {
    a == NegInf || b == PosInf || (a.Fin? && b.Fin? && a.value <= b.value)
  }

  predicate Lt(a: Score, b: Score) {
    !Le(b, a)
  }

  /** `max(a, b)`: an upper bound of both that is one of them. */
  function Max(a: Score, b: Score): (m: Score)
    ensures Le(a, m) && Le(b, m) && (m == a || m == b)
  {
    if Le(a, b) then b else a
  }

  /** `min(a, b)`: a lower bound of both that is one of them. */
  function Min(a: Score, b: Score): (m: Score)
    ensures Le(m, a) && Le(m, b) && (m == a || m == b)
  {
    if Le(a, b) then a else b
  }

  datatype Option<T> = None | Some(value: T)

  /** The moves a search node tries: get_potential_moves(symbol) once a
      cell is marked, all empty cells on an unmarked board. Both kinds of
      node ask for the AI's own symbol. */
  function Candidates(b: BoardState, me: Symbol): (ms: seq<Move>)
    requires WellFormed(b)
    ensures AllInRange(b, ms) && NoDuplicates(ms)
    ensures forall m | m in ms :: IsValidMove(b, m)
  {
    if b.markedCells != 0 then
      PotentialMovesSpec(b, me);
      PotentialMoves(b, me)
    else
      var empty := EmptyCells(b);
      assert forall i | 0 <= i < |empty| :: empty[i] in empty;
      empty
  }

  /** A node is a leaf at the depth bound or on a terminal board. */
  predicate Leaf(b: BoardState, depth: nat, maxDepth: nat)
    requires WellFormed(b)
  {
    depth == maxDepth || IsTerminal(b)
  }

  /** minimax(board, depth, max_depth, alpha, beta, maximizing): the value
      and the best move. A leaf is scored by evaluate_board from the AI's
      side and has no move. */
  function AlphaBeta(b: BoardState, me: Symbol, opp: Symbol, depth: nat, maxDepth: nat,
                     alpha: Score, beta: Score, maximizing: bool): (Score, Option<Move>)
    requires WellFormed(b) && depth <= maxDepth
    decreases maxDepth - depth, 1, 0
  {
    if Leaf(b, depth, maxDepth) then (Fin(BoardScore(b, me, opp)), None)
    else if maximizing then MaxLoop(b, me, opp, depth, maxDepth, Candidates(b, me), NegInf, None, alpha, beta)
    else MinLoop(b, me, opp, depth, maxDepth, Candidates(b, me), PosInf, None, alpha, beta)
  }

  /** The maximizing loop from its current state: the AI's symbol is placed
      on a copy, the child is searched as a minimizing node, a strictly
      better value is kept with its move, alpha is raised, and the loop stops
      once beta <= alpha. */
  function MaxLoop(b: BoardState, me: Symbol, opp: Symbol, depth: nat, maxDepth: nat, moves: seq<Move>,
                   maxEval: Score, bestMove: Option<Move>, alpha: Score, beta: Score): (Score, Option<Move>)
    requires WellFormed(b) && depth < maxDepth && AllInRange(b, moves)
    decreases maxDepth - depth, 0, |moves|
  {
    if moves == [] then (maxEval, bestMove)
    else
      var evaluation := AlphaBeta(Mark(b, me, moves[0]), me, opp, depth + 1, maxDepth, alpha, beta, false).0;
      var (maxEval', bestMove') := if Lt(maxEval, evaluation) then (evaluation, Some(moves[0])) else (maxEval, bestMove);
      var alpha' := Max(alpha, maxEval');
      if Le(beta, alpha') then (maxEval', bestMove')
      else MaxLoop(b, me, opp, depth, maxDepth, moves[1..], maxEval', bestMove', alpha', beta)
  }

  /** The minimizing loop: the opponent's symbol is placed, the child is
      searched as a maximizing node, a strictly smaller value is kept with
      its move, beta is lowered, and the loop stops once beta <= alpha. */
  function MinLoop(b: BoardState, me: Symbol, opp: Symbol, depth: nat, maxDepth: nat, moves: seq<Move>,
                   minEval: Score, bestMove: Option<Move>, alpha: Score, beta: Score): (Score, Option<Move>)
    requires WellFormed(b) && depth < maxDepth && AllInRange(b, moves)
    decreases maxDepth - depth, 0, |moves|
  {
    if moves == [] then (minEval, bestMove)
    else
      var evaluation := AlphaBeta(Mark(b, opp, moves[0]), me, opp, depth + 1, maxDepth, alpha, beta, true).0;
      var (minEval', bestMove') := if Lt(evaluation, minEval) then (evaluation, Some(moves[0])) else (minEval, bestMove);
      var beta' := Min(beta, minEval');
      if Le(beta', alpha) then (minEval', bestMove')
      else MinLoop(b, me, opp, depth, maxDepth, moves[1..], minEval', bestMove', alpha, beta')
  }

  /** The same search without cut-offs: the plain minimax value. */
  function Minimax(b: BoardState, me: Symbol, opp: Symbol, depth: nat, maxDepth: nat, maximizing: bool): Score
    requires WellFormed(b) && depth <= maxDepth
    decreases maxDepth - depth, 1, 0
  {
    if Leaf(b, depth, maxDepth) then Fin(BoardScore(b, me, opp))
    else if maximizing then MaxValue(b, me, opp, depth, maxDepth, Candidates(b, me))
    else MinValue(b, me, opp, depth, maxDepth, Candidates(b, me))
  }

  /** The largest child value, `-inf` for no children. */
  function MaxValue(b: BoardState, me: Symbol, opp: Symbol, depth: nat, maxDepth: nat, moves: seq<Move>): Score
    requires WellFormed(b) && depth < maxDepth && AllInRange(b, moves)
    decreases maxDepth - depth, 0, |moves|
  {
    if moves == [] then NegInf
    else Max(Minimax(Mark(b, me, moves[0]), me, opp, depth + 1, maxDepth, false), MaxValue(b, me, opp, depth, maxDepth, moves[1..]))
  }

  /** The smallest child value, `inf` for no children. */
  function MinValue(b: BoardState, me: Symbol, opp: Symbol, depth: nat, maxDepth: nat, moves: seq<Move>): Score
    requires WellFormed(b) && depth < maxDepth && AllInRange(b, moves)
    decreases maxDepth - depth, 0, |moves|
  {
    if moves == [] then PosInf
    else Min(Minimax(Mark(b, opp, moves[0]), me, opp, depth + 1, maxDepth, true), MinValue(b, me, opp, depth, maxDepth, moves[1..]))
  }

  /** The fail-soft relation of a pruned value `r` to the true value `v`
      for the window (alpha, beta): a value at or below alpha is an upper
      bound, a value inside the window is exact, a value at or above beta is
      a lower bound. */
  predicate FailSoft(r: Score, v: Score, alpha: Score, beta: Score) {
    && (Le(r, alpha) ==> Le(v, r))
    && (Lt(alpha, r) && Lt(r, beta) ==> v == r)
    && (Le(beta, r) ==> Le(r, v))
  }

  lemma MaxAssociative(a: Score, b: Score, c: Score)
    ensures Max(Max(a, b), c) == Max(a, Max(b, c))
  {
  }

  lemma MinAssociative(a: Score, b: Score, c: Score)
    ensures Min(Min(a, b), c) == Min(a, Min(b, c))
  {
  }

  /** The search with cut-offs is fail-soft with respect to the search
      without them, for every window with alpha < beta. */
  lemma {:induction false} AlphaBetaFailSoft(b: BoardState, me: Symbol, opp: Symbol, depth: nat, maxDepth: nat,
                                             alpha: Score, beta: Score, maximizing: bool)
    requires WellFormed(b) && depth <= maxDepth && Lt(alpha, beta)
    ensures FailSoft(AlphaBeta(b, me, opp, depth, maxDepth, alpha, beta, maximizing).0,
                     Minimax(b, me, opp, depth, maxDepth, maximizing), alpha, beta)
    decreases maxDepth - depth, 1, 0
  {
    if !Leaf(b, depth, maxDepth) {
      var moves := Candidates(b, me);
      if maximizing {
        MaxLoopFailSoft(b, me, opp, depth, maxDepth, moves, NegInf, None, alpha, beta, alpha, NegInf);
      } else {
        MinLoopFailSoft(b, me, opp, depth, maxDepth, moves, PosInf, None, alpha, beta, beta, PosInf);
      }
    }
  }

  /** One step of the maximizing loop, on values alone: the child's pruned
      value `r` is fail-soft against its true value `v` for the window
      (alpha, beta). After the step, either the loop stops and its value is
      fail-soft against every larger true maximum, or the loop state again
      meets the requirements of MaxLoopFailSoft. */
  lemma MaxStep(maxEval: Score, alpha: Score, beta: Score, alpha0: Score, seen: Score, r: Score, v: Score, rest: Score)
    requires alpha == Max(alpha0, maxEval) && Lt(alpha, beta)
    requires Le(seen, maxEval) && (Lt(alpha0, maxEval) ==> seen == maxEval)
    requires FailSoft(r, v, alpha, beta)
    ensures var maxEval' := if Lt(maxEval, r) then r else maxEval;
      var alpha', seen' := Max(alpha, maxEval'), Max(seen, v);
      && (Le(beta, alpha') ==> FailSoft(maxEval', Max(seen', rest), alpha0, beta))
      && (!Le(beta, alpha') ==>
            alpha' == Max(alpha0, maxEval') && Lt(alpha', beta) && Le(seen', maxEval') && (Lt(alpha0, maxEval') ==> seen' == maxEval'))
  {
  }

  /** The mirror image of MaxStep. */
  lemma MinStep(minEval: Score, alpha: Score, beta: Score, beta0: Score, seen: Score, r: Score, v: Score, rest: Score)
    requires beta == Min(beta0, minEval) && Lt(alpha, beta)
    requires Le(minEval, seen) && (Lt(minEval, beta0) ==> seen == minEval)
    requires FailSoft(r, v, alpha, beta)
    ensures var minEval' := if Lt(r, minEval) then r else minEval;
      var beta', seen' := Min(beta, minEval'), Min(seen, v);
      && (Le(beta', alpha) ==> FailSoft(minEval', Min(seen', rest), alpha, beta0))
      && (!Le(beta', alpha) ==>
            beta' == Min(beta0, minEval') && Lt(alpha, beta') && Le(minEval', seen') && (Lt(minEval', beta0) ==> seen' == minEval'))
  {
  }

  /** The maximizing loop keeps alpha at the larger of the original alpha and
      the best value so far; `seen`, the true maximum of the children
      searched so far, is at most that best value, and equal to it once it
      exceeds the original alpha. */
  lemma {:induction false} MaxLoopFailSoft(b: BoardState, me: Symbol, opp: Symbol, depth: nat, maxDepth: nat, moves: seq<Move>,
                                           maxEval: Score, bestMove: Option<Move>, alpha: Score, beta: Score,
                                           alpha0: Score, seen: Score)
    requires WellFormed(b) && depth < maxDepth && AllInRange(b, moves)
    requires alpha == Max(alpha0, maxEval) && Lt(alpha, beta)
    requires Le(seen, maxEval) && (Lt(alpha0, maxEval) ==> seen == maxEval)
    ensures FailSoft(MaxLoop(b, me, opp, depth, maxDepth, moves, maxEval, bestMove, alpha, beta).0,
                     Max(seen, MaxValue(b, me, opp, depth, maxDepth, moves)), alpha0, beta)
    decreases maxDepth - depth, 0, |moves|
  {
    if moves != [] {
      var child := Mark(b, me, moves[0]);
      var r := AlphaBeta(child, me, opp, depth + 1, maxDepth, alpha, beta, false).0;
      var v := Minimax(child, me, opp, depth + 1, maxDepth, false);
      AlphaBetaFailSoft(child, me, opp, depth + 1, maxDepth, alpha, beta, false);
      var rest := MaxValue(b, me, opp, depth, maxDepth, moves[1..]);
      MaxAssociative(seen, v, rest);
      MaxStep(maxEval, alpha, beta, alpha0, seen, r, v, rest);
      var (maxEval', bestMove') := if Lt(maxEval, r) then (r, Some(moves[0])) else (maxEval, bestMove);
      var alpha' := Max(alpha, maxEval');
      if !Le(beta, alpha') {
        MaxLoopFailSoft(b, me, opp, depth, maxDepth, moves[1..], maxEval', bestMove', alpha', beta, alpha0, Max(seen, v));
      }
    }
  }

  /** The mirror image of MaxLoopFailSoft for the minimizing loop. */
  lemma {:induction false} MinLoopFailSoft(b: BoardState, me: Symbol, opp: Symbol, depth: nat, maxDepth: nat, moves: seq<Move>,
                                           minEval: Score, bestMove: Option<Move>, alpha: Score, beta: Score,
                                           beta0: Score, seen: Score)
    requires WellFormed(b) && depth < maxDepth && AllInRange(b, moves)
    requires beta == Min(beta0, minEval) && Lt(alpha, beta)
    requires Le(minEval, seen) && (Lt(minEval, beta0) ==> seen == minEval)
    ensures FailSoft(MinLoop(b, me, opp, depth, maxDepth, moves, minEval, bestMove, alpha, beta).0,
                     Min(seen, MinValue(b, me, opp, depth, maxDepth, moves)), alpha, beta0)
    decreases maxDepth - depth, 0, |moves|
  {
    if moves != [] {
      var child := Mark(b, opp, moves[0]);
      var r := AlphaBeta(child, me, opp, depth + 1, maxDepth, alpha, beta, true).0;
      var v := Minimax(child, me, opp, depth + 1, maxDepth, true);
      AlphaBetaFailSoft(child, me, opp, depth + 1, maxDepth, alpha, beta, true);
      var rest := MinValue(b, me, opp, depth, maxDepth, moves[1..]);
      MinAssociative(seen, v, rest);
      MinStep(minEval, alpha, beta, beta0, seen, r, v, rest);
      var (minEval', bestMove') := if Lt(r, minEval) then (r, Some(moves[0])) else (minEval, bestMove);
      var beta' := Min(beta, minEval');
      if !Le(beta', alpha) {
        MinLoopFailSoft(b, me, opp, depth, maxDepth, moves[1..], minEval', bestMove', alpha, beta', beta0, Min(seen, v));
      }
    }
  }

  /** Soundness of the cut-offs in the three forms of Knuth and Moore: the
      pruned value is exact when the true value lies inside the window, at
      most alpha when the true value is, and at least beta when the true
      value is. */
  lemma AlphaBetaSound(b: BoardState, me: Symbol, opp: Symbol, depth: nat, maxDepth: nat,
                       alpha: Score, beta: Score, maximizing: bool)
    requires WellFormed(b) && depth <= maxDepth && Lt(alpha, beta)
    ensures var r, v := AlphaBeta(b, me, opp, depth, maxDepth, alpha, beta, maximizing).0,
                        Minimax(b, me, opp, depth, maxDepth, maximizing);
      && (Lt(alpha, v) && Lt(v, beta) ==> r == v)
      && (Le(v, alpha) ==> Le(r, alpha))
      && (Le(beta, v) ==> Le(beta, r))
  {
    AlphaBetaFailSoft(b, me, opp, depth, maxDepth, alpha, beta, maximizing);
  }

  /** With the full window (-inf, inf), as make_move calls it, the pruned
      search returns the plain minimax value. */
  lemma RootValue(b: BoardState, me: Symbol, opp: Symbol, depth: nat, maxDepth: nat, maximizing: bool)
    requires WellFormed(b) && depth <= maxDepth
    ensures AlphaBeta(b, me, opp, depth, maxDepth, NegInf, PosInf, maximizing).0 == Minimax(b, me, opp, depth, maxDepth, maximizing)
  {
    AlphaBetaFailSoft(b, me, opp, depth, maxDepth, NegInf, PosInf, maximizing);
  }

  /** The value of the child a maximizing node reaches by `m`, without
      cut-offs. */
  function MaxChildValue(b: BoardState, me: Symbol, opp: Symbol, depth: nat, maxDepth: nat, m: Move): Score
    requires WellFormed(b) && depth < maxDepth && InRange(b, m)
  {
    Minimax(Mark(b, me, m), me, opp, depth + 1, maxDepth, false)
  }

  /** The move a loop returns is the move it started with or one of the
      moves it tried; when no move is chosen the value is the starting
      one. */
  lemma {:induction false} MaxLoopMove(b: BoardState, me: Symbol, opp: Symbol, depth: nat, maxDepth: nat, moves: seq<Move>,
                                       maxEval: Score, bestMove: Option<Move>, alpha: Score, beta: Score)
    requires WellFormed(b) && depth < maxDepth && AllInRange(b, moves)
    ensures var (value, move) := MaxLoop(b, me, opp, depth, maxDepth, moves, maxEval, bestMove, alpha, beta);
      && (move == bestMove || (move.Some? && move.value in moves))
      && (bestMove == None && move == None ==> value == maxEval)
    decreases |moves|
  {
    if moves != [] {
      var r := AlphaBeta(Mark(b, me, moves[0]), me, opp, depth + 1, maxDepth, alpha, beta, false).0;
      var (maxEval', bestMove') := if Lt(maxEval, r) then (r, Some(moves[0])) else (maxEval, bestMove);
      MaxLoopMove(b, me, opp, depth, maxDepth, moves[1..], maxEval', bestMove', Max(alpha, maxEval'), beta);
    }
  }

  /** The mirror image of MaxLoopMove. */
  lemma {:induction false} MinLoopMove(b: BoardState, me: Symbol, opp: Symbol, depth: nat, maxDepth: nat, moves: seq<Move>,
                                       minEval: Score, bestMove: Option<Move>, alpha: Score, beta: Score)
    requires WellFormed(b) && depth < maxDepth && AllInRange(b, moves)
    ensures var (value, move) := MinLoop(b, me, opp, depth, maxDepth, moves, minEval, bestMove, alpha, beta);
      && (move == bestMove || (move.Some? && move.value in moves))
      && (bestMove == None && move == None ==> value == minEval)
    decreases |moves|
  {
    if moves != [] {
      var r := AlphaBeta(Mark(b, opp, moves[0]), me, opp, depth + 1, maxDepth, alpha, beta, true).0;
      var (minEval', bestMove') := if Lt(r, minEval) then (r, Some(moves[0])) else (minEval, bestMove);
      MinLoopMove(b, me, opp, depth, maxDepth, moves[1..], minEval', bestMove', alpha, Min(beta, minEval'));
    }
  }

  /** A search returns no move at a leaf; otherwise any move it returns is
      one of the node's candidates, and when it returns none the value is
      the loop's starting value. */
  lemma BestMoveIsCandidate(b: BoardState, me: Symbol, opp: Symbol, depth: nat, maxDepth: nat,
                            alpha: Score, beta: Score, maximizing: bool)
    requires WellFormed(b) && depth <= maxDepth
    ensures var (value, move) := AlphaBeta(b, me, opp, depth, maxDepth, alpha, beta, maximizing);
      && (Leaf(b, depth, maxDepth) ==> move == None)
      && (move.Some? ==> move.value in Candidates(b, me))
      && (!Leaf(b, depth, maxDepth) && move == None ==> value == (if maximizing then NegInf else PosInf))
  {
    if !Leaf(b, depth, maxDepth) {
      if maximizing {
        MaxLoopMove(b, me, opp, depth, maxDepth, Candidates(b, me), NegInf, None, alpha, beta);
      } else {
        MinLoopMove(b, me, opp, depth, maxDepth, Candidates(b, me), PosInf, None, alpha, beta);
      }
    }
  }

  /** A new best value of the maximizing loop, fail-soft for the window the
      child was searched with, is fail-soft for the loop's original window
      too, because it exceeds the best value before it. */
  lemma MaxBestStep(maxEval: Score, alpha: Score, alpha0: Score, beta: Score, r: Score, v: Score)
    requires alpha == Max(alpha0, maxEval) && Lt(maxEval, r) && FailSoft(r, v, alpha, beta)
    ensures FailSoft(r, v, alpha0, beta)
  {
  }

  /** The move the maximizing loop keeps has a true value fail-soft against
      the loop's value for the original window. */
  lemma {:induction false} MaxLoopBestMove(b: BoardState, me: Symbol, opp: Symbol, depth: nat, maxDepth: nat, moves: seq<Move>,
                                           maxEval: Score, bestMove: Option<Move>, alpha: Score, beta: Score, alpha0: Score)
    requires WellFormed(b) && depth < maxDepth && AllInRange(b, moves)
    requires alpha == Max(alpha0, maxEval) && Lt(alpha, beta)
    requires bestMove.Some? ==>
      InRange(b, bestMove.value) && FailSoft(maxEval, MaxChildValue(b, me, opp, depth, maxDepth, bestMove.value), alpha0, beta)
    ensures var (value, move) := MaxLoop(b, me, opp, depth, maxDepth, moves, maxEval, bestMove, alpha, beta);
      move.Some? ==> InRange(b, move.value) && FailSoft(value, MaxChildValue(b, me, opp, depth, maxDepth, move.value), alpha0, beta)
    decreases |moves|
  {
    if moves != [] {
      var child := Mark(b, me, moves[0]);
      var r := AlphaBeta(child, me, opp, depth + 1, maxDepth, alpha, beta, false).0;
      var (maxEval', bestMove') := if Lt(maxEval, r) then (r, Some(moves[0])) else (maxEval, bestMove);
      var alpha' := Max(alpha, maxEval');
      if Lt(maxEval, r) {
        AlphaBetaFailSoft(child, me, opp, depth + 1, maxDepth, alpha, beta, false);
        MaxBestStep(maxEval, alpha, alpha0, beta, r, MaxChildValue(b, me, opp, depth, maxDepth, moves[0]));
      }
      if !Le(beta, alpha') {
        MaxLoopBestMove(b, me, opp, depth, maxDepth, moves[1..], maxEval', bestMove', alpha', beta, alpha0);
      }
    }
  }

  /** At the full window a maximizing search that returns a move returns an
      optimal one: a candidate whose true value is the node's value, which is
      also the plain minimax value. */
  lemma RootMoveOptimal(b: BoardState, me: Symbol, opp: Symbol, depth: nat, maxDepth: nat)
    requires WellFormed(b) && depth <= maxDepth
    ensures var (value, move) := AlphaBeta(b, me, opp, depth, maxDepth, NegInf, PosInf, true);
      move.Some? ==>
        && !Leaf(b, depth, maxDepth)
        && move.value in Candidates(b, me)
        && MaxChildValue(b, me, opp, depth, maxDepth, move.value) == value
        && value == Minimax(b, me, opp, depth, maxDepth, true)
  {
    BestMoveIsCandidate(b, me, opp, depth, maxDepth, NegInf, PosInf, true);
    RootValue(b, me, opp, depth, maxDepth, true);
    if !Leaf(b, depth, maxDepth) {
      MaxLoopBestMove(b, me, opp, depth, maxDepth, Candidates(b, me), NegInf, None, NegInf, PosInf, NegInf);
    }
  }

  /** The value of the child a minimizing node reaches by `m`, without
      cut-offs. */
  function MinChildValue(b: BoardState, me: Symbol, opp: Symbol, depth: nat, maxDepth: nat, m: Move): Score
    requires WellFormed(b) && depth < maxDepth && InRange(b, m)
  {
    Minimax(Mark(b, opp, m), me, opp, depth + 1, maxDepth, true)
  }

  /** One step of the maximizing loop under (-inf, inf), on values alone:
      the child's true value `v` is at most the new best value, and the new
      best value is the new alpha. */
  lemma MaxFirstStep(maxEval: Score, r: Score, v: Score)
    requires maxEval != PosInf && FailSoft(r, v, maxEval, PosInf)
    ensures var maxEval' := if Lt(maxEval, r) then r else maxEval;
      Le(v, maxEval') && Le(maxEval, maxEval') && Max(maxEval, maxEval') == maxEval'
  {
  }

  /** The mirror image of MaxFirstStep. */
  lemma MinFirstStep(minEval: Score, r: Score, v: Score)
    requires minEval != NegInf && FailSoft(r, v, NegInf, minEval)
    ensures var minEval' := if Lt(r, minEval) then r else minEval;
      Le(minEval', v) && Le(minEval', minEval) && Min(minEval, minEval') == minEval'
  {
  }

  /** A property of the first child and of the first `k` children after it
      holds for the first `k + 1` children. */
  lemma MaxPrefixBelow(b: BoardState, me: Symbol, opp: Symbol, depth: nat, maxDepth: nat, moves: seq<Move>, k: nat, value: Score)
    requires WellFormed(b) && depth < maxDepth && AllInRange(b, moves) && k + 1 < |moves|
    requires Lt(MaxChildValue(b, me, opp, depth, maxDepth, moves[0]), value)
    requires forall j | 0 <= j < k :: Lt(MaxChildValue(b, me, opp, depth, maxDepth, moves[1..][j]), value)
    ensures moves[1..][k] == moves[k + 1]
    ensures forall j | 0 <= j < k + 1 :: Lt(MaxChildValue(b, me, opp, depth, maxDepth, moves[j]), value)
  {
    forall j | 0 < j < k + 1 ensures Lt(MaxChildValue(b, me, opp, depth, maxDepth, moves[j]), value) {
      assert Lt(MaxChildValue(b, me, opp, depth, maxDepth, moves[1..][j - 1]), value);
      assert moves[j] == moves[1..][j - 1];
    }
  }

  /** The mirror image of MaxPrefixBelow. */
  lemma MinPrefixAbove(b: BoardState, me: Symbol, opp: Symbol, depth: nat, maxDepth: nat, moves: seq<Move>, k: nat, value: Score)
    requires WellFormed(b) && depth < maxDepth && AllInRange(b, moves) && k + 1 < |moves|
    requires Lt(value, MinChildValue(b, me, opp, depth, maxDepth, moves[0]))
    requires forall j | 0 <= j < k :: Lt(value, MinChildValue(b, me, opp, depth, maxDepth, moves[1..][j]))
    ensures moves[1..][k] == moves[k + 1]
    ensures forall j | 0 <= j < k + 1 :: Lt(value, MinChildValue(b, me, opp, depth, maxDepth, moves[j]))
  {
    forall j | 0 < j < k + 1 ensures Lt(value, MinChildValue(b, me, opp, depth, maxDepth, moves[j])) {
      assert Lt(value, MinChildValue(b, me, opp, depth, maxDepth, moves[1..][j - 1]));
      assert moves[j] == moves[1..][j - 1];
    }
  }

  /** One iteration of the maximizing loop under the window (-inf, inf),
      where alpha is the best value so far. The first child is searched to
      a value `r` fail-soft for its true value; the loop ends at once when
      `r` is +inf, and otherwise goes on with the new best value as alpha. */
  lemma MaxLoopFullStep(b: BoardState, me: Symbol, opp: Symbol, depth: nat, maxDepth: nat, moves: seq<Move>,
                        maxEval: Score, bestMove: Option<Move>) returns (r: Score)
    requires WellFormed(b) && depth < maxDepth && AllInRange(b, moves) && moves != [] && maxEval != PosInf
    ensures FailSoft(r, MaxChildValue(b, me, opp, depth, maxDepth, moves[0]), maxEval, PosInf)
    ensures Lt(maxEval, r) && r == PosInf ==>
      MaxLoop(b, me, opp, depth, maxDepth, moves, maxEval, bestMove, maxEval, PosInf) == (r, Some(moves[0]))
    ensures var maxEval' := if Lt(maxEval, r) then r else maxEval;
      var bestMove' := if Lt(maxEval, r) then Some(moves[0]) else bestMove;
      maxEval' != PosInf ==>
        MaxLoop(b, me, opp, depth, maxDepth, moves, maxEval, bestMove, maxEval, PosInf)
        == MaxLoop(b, me, opp, depth, maxDepth, moves[1..], maxEval', bestMove', maxEval', PosInf)
  {
    var child := Mark(b, me, moves[0]);
    r := AlphaBeta(child, me, opp, depth + 1, maxDepth, maxEval, PosInf, false).0;
    AlphaBetaFailSoft(child, me, opp, depth + 1, maxDepth, maxEval, PosInf, false);
  }

  /** The mirror image of MaxLoopFullStep. */
  lemma MinLoopFullStep(b: BoardState, me: Symbol, opp: Symbol, depth: nat, maxDepth: nat, moves: seq<Move>,
                        minEval: Score, bestMove: Option<Move>) returns (r: Score)
    requires WellFormed(b) && depth < maxDepth && AllInRange(b, moves) && moves != [] && minEval != NegInf
    ensures FailSoft(r, MinChildValue(b, me, opp, depth, maxDepth, moves[0]), NegInf, minEval)
    ensures Lt(r, minEval) && r == NegInf ==>
      MinLoop(b, me, opp, depth, maxDepth, moves, minEval, bestMove, NegInf, minEval) == (r, Some(moves[0]))
    ensures var minEval' := if Lt(r, minEval) then r else minEval;
      var bestMove' := if Lt(r, minEval) then Some(moves[0]) else bestMove;
      minEval' != NegInf ==>
        MinLoop(b, me, opp, depth, maxDepth, moves, minEval, bestMove, NegInf, minEval)
        == MinLoop(b, me, opp, depth, maxDepth, moves[1..], minEval', bestMove', NegInf, minEval')
  {
    var child := Mark(b, opp, moves[0]);
    r := AlphaBeta(child, me, opp, depth + 1, maxDepth, NegInf, minEval, true).0;
    AlphaBetaFailSoft(child, me, opp, depth + 1, maxDepth, NegInf, minEval, true);
  }

  /** The maximizing loop under the window (-inf, inf), where alpha is the
      best value so far: either it keeps its starting value and move
      (`k == |moves|`), or it returns the move at index `k` with a larger
      value, and every child before `k` has a true value strictly below it.
      Because the loop only replaces its best move on a strictly larger
      value, the move returned is the first one reaching the value. */
  lemma {:induction false} MaxLoopFirstBest(b: BoardState, me: Symbol, opp: Symbol, depth: nat, maxDepth: nat, moves: seq<Move>,
                                            maxEval: Score, bestMove: Option<Move>) returns (k: nat)
    requires WellFormed(b) && depth < maxDepth && AllInRange(b, moves) && maxEval != PosInf
    ensures k <= |moves|
    ensures var (value, move) := MaxLoop(b, me, opp, depth, maxDepth, moves, maxEval, bestMove, maxEval, PosInf);
      || (k == |moves| && value == maxEval && move == bestMove)
      || (k < |moves| && move == Some(moves[k]) && Lt(maxEval, value)
          && forall j | 0 <= j < k :: Lt(MaxChildValue(b, me, opp, depth, maxDepth, moves[j]), value))
    decreases |moves|
  {
    if moves == [] {
      return 0;
    }
    var r := MaxLoopFullStep(b, me, opp, depth, maxDepth, moves, maxEval, bestMove);
    MaxFirstStep(maxEval, r, MaxChildValue(b, me, opp, depth, maxDepth, moves[0]));
    if Lt(maxEval, r) && r == PosInf {
      return 0;
    }
    var maxEval' := if Lt(maxEval, r) then r else maxEval;
    var bestMove' := if Lt(maxEval, r) then Some(moves[0]) else bestMove;
    var k' := MaxLoopFirstBest(b, me, opp, depth, maxDepth, moves[1..], maxEval', bestMove');
    var value := MaxLoop(b, me, opp, depth, maxDepth, moves[1..], maxEval', bestMove', maxEval', PosInf).0;
    if k' == |moves| - 1 {
      k := if Lt(maxEval, r) then 0 else |moves|;
    } else {
      MaxPrefixBelow(b, me, opp, depth, maxDepth, moves, k', value);
      k := k' + 1;
    }
  }

  /** The mirror image of MaxLoopFirstBest: under (-inf, inf), the move a
      minimizing loop returns is the first one reaching its value. */
  lemma {:induction false} MinLoopFirstBest(b: BoardState, me: Symbol, opp: Symbol, depth: nat, maxDepth: nat, moves: seq<Move>,
                                            minEval: Score, bestMove: Option<Move>) returns (k: nat)
    requires WellFormed(b) && depth < maxDepth && AllInRange(b, moves) && minEval != NegInf
    ensures k <= |moves|
    ensures var (value, move) := MinLoop(b, me, opp, depth, maxDepth, moves, minEval, bestMove, NegInf, minEval);
      || (k == |moves| && value == minEval && move == bestMove)
      || (k < |moves| && move == Some(moves[k]) && Lt(value, minEval)
          && forall j | 0 <= j < k :: Lt(value, MinChildValue(b, me, opp, depth, maxDepth, moves[j])))
    decreases |moves|
  {
    if moves == [] {
      return 0;
    }
    var r := MinLoopFullStep(b, me, opp, depth, maxDepth, moves, minEval, bestMove);
    MinFirstStep(minEval, r, MinChildValue(b, me, opp, depth, maxDepth, moves[0]));
    if Lt(r, minEval) && r == NegInf {
      return 0;
    }
    var minEval' := if Lt(r, minEval) then r else minEval;
    var bestMove' := if Lt(r, minEval) then Some(moves[0]) else bestMove;
    var k' := MinLoopFirstBest(b, me, opp, depth, maxDepth, moves[1..], minEval', bestMove');
    var value := MinLoop(b, me, opp, depth, maxDepth, moves[1..], minEval', bestMove', NegInf, minEval').0;
    if k' == |moves| - 1 {
      k := if Lt(r, minEval) then 0 else |moves|;
    } else {
      MinPrefixAbove(b, me, opp, depth, maxDepth, moves, k', value);
      k := k' + 1;
    }
  }

  /** At the full window a maximizing search that returns a move returns the
      first candidate reaching the node's value: every candidate before it
      has a strictly smaller true value. */
  lemma RootMoveFirst(b: BoardState, me: Symbol, opp: Symbol, depth: nat, maxDepth: nat)
    requires WellFormed(b) && depth < maxDepth && !Leaf(b, depth, maxDepth)
    ensures var (value, move) := AlphaBeta(b, me, opp, depth, maxDepth, NegInf, PosInf, true);
      move.Some? ==>
        exists k | 0 <= k < |Candidates(b, me)| :: && move.value == Candidates(b, me)[k]
          && forall j | 0 <= j < k :: Lt(MaxChildValue(b, me, opp, depth, maxDepth, Candidates(b, me)[j]), value)
  {
    var k := MaxLoopFirstBest(b, me, opp, depth, maxDepth, Candidates(b, me), NegInf, None);
  }

  /** The mirror image of RootMoveFirst for a minimizing node. */
  lemma MinMoveFirst(b: BoardState, me: Symbol, opp: Symbol, depth: nat, maxDepth: nat)
    requires WellFormed(b) && depth < maxDepth && !Leaf(b, depth, maxDepth)
    ensures var (value, move) := AlphaBeta(b, me, opp, depth, maxDepth, NegInf, PosInf, false);
      move.Some? ==>
        exists k | 0 <= k < |Candidates(b, me)| :: && move.value == Candidates(b, me)[k]
          && forall j | 0 <= j < k :: Lt(value, MinChildValue(b, me, opp, depth, maxDepth, Candidates(b, me)[j]))
  {
    var k := MinLoopFirstBest(b, me, opp, depth, maxDepth, Candidates(b, me), PosInf, None);
  }

  /** A minimizing node one level above the depth bound never has the value
      -inf: its children are leaves with integer scores. */
  lemma {:induction false} MinLoopAboveLeaves(b: BoardState, me: Symbol, opp: Symbol, depth: nat, maxDepth: nat, moves: seq<Move>,
                                              minEval: Score, bestMove: Option<Move>, alpha: Score, beta: Score)
    requires WellFormed(b) && depth + 1 == maxDepth && AllInRange(b, moves) && minEval != NegInf
    ensures MinLoop(b, me, opp, depth, maxDepth, moves, minEval, bestMove, alpha, beta).0 != NegInf
    decreases |moves|
  {
    if moves != [] {
      var r := AlphaBeta(Mark(b, opp, moves[0]), me, opp, depth + 1, maxDepth, alpha, beta, true).0;
      assert r.Fin?;
      var (minEval', bestMove') := if Lt(r, minEval) then (r, Some(moves[0])) else (minEval, bestMove);
      MinLoopAboveLeaves(b, me, opp, depth, maxDepth, moves[1..], minEval', bestMove', alpha, Min(beta, minEval'));
    }
  }

  lemma MinNodeAboveLeaves(b: BoardState, me: Symbol, opp: Symbol, depth: nat, maxDepth: nat, alpha: Score, beta: Score)
    requires WellFormed(b) && depth + 1 == maxDepth
    ensures AlphaBeta(b, me, opp, depth, maxDepth, alpha, beta, false).0 != NegInf
  {
    if !Leaf(b, depth, maxDepth) {
      MinLoopAboveLeaves(b, me, opp, depth, maxDepth, Candidates(b, me), PosInf, None, alpha, beta);
    }
  }

  /** Two levels above the depth bound, as make_move searches (depth 0,
      max_depth 2), a maximizing node returns a move exactly when it is not a
      leaf and has a candidate. */
  lemma SearchFindsMove(b: BoardState, me: Symbol, opp: Symbol, depth: nat, maxDepth: nat, alpha: Score, beta: Score)
    requires WellFormed(b) && depth + 2 == maxDepth
    ensures AlphaBeta(b, me, opp, depth, maxDepth, alpha, beta, true).1.Some?
      <==> !Leaf(b, depth, maxDepth) && Candidates(b, me) != []
  {
    BestMoveIsCandidate(b, me, opp, depth, maxDepth, alpha, beta, true);
    if !Leaf(b, depth, maxDepth) && Candidates(b, me) != [] {
      var moves := Candidates(b, me);
      var child := Mark(b, me, moves[0]);
      MinNodeAboveLeaves(child, me, opp, depth + 1, maxDepth, alpha, beta);
      var r := AlphaBeta(child, me, opp, depth + 1, maxDepth, alpha, beta, false).0;
      var alpha' := Max(alpha, r);
      if !Le(beta, alpha') {
        MaxLoopMove(b, me, opp, depth, maxDepth, moves[1..], r, Some(moves[0]), alpha', beta);
      }
    }
  }
}
