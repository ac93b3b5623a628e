# Gomoku engine core in Dafny

This project models the game logic of a Python N-in-a-row (Gomoku) program and proves properties of it:

- the board (`board.py`): occupancy, marking, win and terminal detection, candidate moves, and the run-length heuristic;
- the Zobrist position hash (`hashing.py`);
- the depth-bounded minimax search with alpha-beta cut-offs of the AI player (`player.py`);
- the pattern-score table (`utils.py`);
- the turn and outcome state of a round (`game.py`);
- the integer layout arithmetic of the window (`graphics.py`).

Modules, in dependency order:

- `Cells` (cells.dfy): the board as a value (`BoardState`). The search works on values, because the program deep-copies the board before every trial move. Covers empty cells, validity, `Mark` (mark_cell) and the count/history invariants.
- `Lines` (lines.dfy): `IsWinner`, which is the program's four sliding-window scans, `IsTerminal` and `IsWinningMove`. Also the window characterisation of a win.
- `Evaluation` (evaluation.dfy): `evaluate_direction`, `evaluate_line_with_defense` and `evaluate_board` as functions. Proves the score table, the bounds and the symmetry under swapping sides.
- `Neighbourhood` (neighbourhood.dfy): `get_potential_moves` as a function. Its result is the distinct empty 8-neighbours of played cells, with winning moves first.
- `Boards` (boards.dfy): class `Board`, whose grid, mark count and history are fields that `MarkCell` updates together. The loops of `get_potential_moves`, `evaluate_direction` and `evaluate_board` are methods proved equal to the functions above.
- `Search` (search.dfy): `minimax` as the function `AlphaBeta`, plus the same search without cut-offs (`Minimax`). Proves the cut-offs sound, in the fail-soft form of Knuth and Moore, and that the chosen move is an optimal candidate.
- `Players` (players.dfy): class `AIPlayer`. Its `Minimax`/`MaxSearch`/`MinSearch` methods loop over deep copies of the board and are proved equal to `AlphaBeta`; `MakeMove` is proved equal to `Decide`.
- `Games` (games.dfy): class `Game` with `SwitchTurns` and `IsGameOver`.
- `Hashing` (hashing.dfy): `index_of`, the shape of `initTable`, and `compute_hash` as a loop proved equal to a recursive XOR fold. Also the make/undo round trip of a single cell.
- `Patterns` (patterns.dfy): `create_pattern_dict` as a loop of 22 successive map assignments per side. Proves its key collisions, final values and symmetry, and the same facts for the evidently intended table.
- `Layout` (layout.dfy): cell size, line width, window size and the coordinates of crosses and circles.

Conventions:

- The program's float sentinels `float("-inf")` and `float("inf")` are the `NegInf` and `PosInf` constructors of `Search.Score`.
- The win values `float("±100000")` are the integer `±100000`.
- The program's set of candidate cells is modelled in order of first insertion. Python's set order is not part of the model.
- `player.py` calls the board with argument lists that do not match `board.py`:
  - `is_terminal(sym, opp)` at player.py:89;
  - `mark_cell(sym, *move)` at player.py:109 and 135;
  - `evaluate_board(..., depth)` at player.py:90-92.

  The model follows the evident intent: `is_terminal()`, `mark_cell(sym, move)` and `evaluate_board(p, o)`.

## Model

| member | source | states |
|---|---|---|
| Cells.Opponent | player.py:45 | the opponent symbol always differs from the player's |
| Cells.OpponentInvolution | player.py:45 | taking the opponent twice gives the symbol back |
| Cells.EmptyGrid | board.py:16-23 | create_board builds `cols` lists of `rows` cells, every one empty |
| Cells.NewBoard | board.py:8-14 | a new board has the given dimensions and to-win length, a square well-formed grid with every in-range cell empty, no marks and an empty history |
| Cells.EmptyCells | board.py:25-36 | get_empty_cells lists exactly the in-range cells holding the empty value, in strictly increasing row-major order, each once |
| Cells.IsValidMove | board.py:38-47 | a move is valid iff it is not out of range and its cell is empty |
| Cells.Mark | board.py:49-58 | mark_cell writes the symbol at that position and nowhere else, adds exactly one to the mark count and appends the position to the history; dimensions and well-formedness are kept |
| Cells.MarkKeepsCounts | board.py:49-58 | marking preserves `marked_cells == len(ordered_moves)` |
| Cells.MarkOccupiedKeepsEmptyCells | board.py:49-58 | mark_cell does not validate: marking an occupied cell, whether it holds the same symbol or the other player's stone, leaves the empty cells as they were yet still counts a mark |
| Cells.OutOfRange | board.py:207-221 | definition: a position is out of range when its row or column is negative or at least the board's size; Cells.IsValidMove and Evaluation.DirectionRun state its uses |
| Cells.BoardFull | board.py:75-81 | definition: the mark count equals rows × cols; Lines.FullBoardWithoutLineNotTerminal states that is_terminal never consults it |
| Cells.MarkKeepsHistory | board.py:49-58 | marking keeps every marked cell recorded in the history |
| Cells.NoHistoryMeansEmpty | board.py:8-14 | on a board built by `__init__` and marked since, an empty history means every in-range cell is a valid move |
| Lines.IsWinner | board.py:285-327 | definition: the four scans of is_winner, each over the start positions the program enumerates; Lines.WinnerIffWindow states what it means |
| Lines.IsTerminal | board.py:83-89 | definition: `(is_winner(X) or is_winner(O)) if True else board_full()`; Lines.FullBoardWithoutLineNotTerminal states the consequence |
| Lines.IsWinningMove | board.py:60-73 | definition: is_winner of the board with the move marked; Boards.Board.IsWinningMove is proved equal to it |
| Lines.WinnerIffWindow | board.py:285-327 | is_winner holds iff some window of exactly `to_win` consecutive cells in one of the four directions, anywhere on the grid, all hold the symbol |
| Lines.LongRunWins | board.py:285-327 | a run of `to_win` or more cells of the symbol is a win |
| Lines.WinNeedsStones | board.py:285-327 | a win needs at least `to_win` stones of the symbol |
| Lines.ShortRunIsNoWin | board.py:285-327 | when every stone of the symbol lies on one run of `to_win - 1` cells, the symbol has not won |
| Lines.FullBoardWithoutLineNotTerminal | board.py:75-89 | because of `if True else`, a full board on which no side has a line is not terminal |
| Evaluation.Scan | board.py:246-250 | one scan loop counts at most its limit; every counted cell lies on the board and holds the symbol; the scan ends the counted number of steps away and stops at the cap, at the border or on a cell not holding the symbol |
| Evaluation.SideScan | board.py:243-263 | a side whose first neighbour is off the board is not scanned: count 0 |
| Evaluation.DirectionRun | board.py:238-263 | the counter shared by both scans never exceeds `to_win`; a side whose first neighbour is off the board counts as open, not blocked |
| Evaluation.RunScore | board.py:265-283 | the score is one of 0, 50, 100, 500, 1000, 5000, 10000; runs of a length other than 2, 3 or 4 and runs blocked on both sides score 0 |
| Evaluation.RunScoreTiers | board.py:265-283 | an open run scores twice a run blocked on one side, and a run blocked on one side outscores an open run one shorter |
| Evaluation.DirectionScore | board.py:223-283 | evaluate_direction returns a score from 0 to 10000 |
| Evaluation.LineScore | board.py:177-205 | the player's direction score minus the opponent's lies within -10000..10000 |
| Evaluation.BoardScore | board.py:130-175 | definition: +100000 on a line of the player (checked first), -100000 on a line of the opponent, otherwise the sum of the line scores through every empty cell; Evaluation.BoardScoreSwap and Evaluation.HeuristicBound state its properties, Boards.Board.EvaluateBoard is proved equal to it |
| Evaluation.BoardScoreSwap | board.py:130-175 | unless both sides have a line, swapping player and opponent negates evaluate_board |
| Evaluation.HeuristicBound | board.py:158-175 | with no line on the board the evaluation is at most 40000 per cell in magnitude |
| Neighbourhood.CollectedSpec | board.py:111-119 | after any prefix of the two loops, the collected cells are distinct and are exactly the in-range empty 8-neighbours of the history seen so far |
| Neighbourhood.NeighbourCells | board.py:101-119 | the first loop yields each in-range empty 8-neighbour of a played cell exactly once |
| Neighbourhood.WinningMember | board.py:123 | a listed move is in the winning set iff is_winning_move holds for it |
| Neighbourhood.Arranged | board.py:121-128 | the second loop's list is a permutation of the moves it has taken so far |
| Neighbourhood.ArrangedFirstAmong | board.py:121-128 | inserting winners at the front and appending the rest puts every winner before every non-winner |
| Neighbourhood.SameMembers | board.py:121-128 | the arranged list has the same elements, with the same multiplicities, as the collected set |
| Neighbourhood.PotentialMoves | board.py:92-128 | definition: the collected neighbours arranged with winners in front; Neighbourhood.PotentialMovesSpec states what it means |
| Neighbourhood.PotentialMovesSpec | board.py:92-128 | get_potential_moves lists each valid move that is an 8-neighbour of a played cell exactly once and nothing else, all in range, with every immediately winning move before every other |
| Boards.Board.constructor | board.py:8-14 | a new board's fields are those of NewBoard, and the mark count agrees with the history |
| Boards.Board.Copy | board.py:70 | a deep copy is a distinct board with the same fields |
| Boards.Board.CreateBoard | board.py:16-23 | create_board replaces the grid by an empty one and returns it; count and history unchanged |
| Boards.Board.MarkCell | board.py:49-58 | the board's new state is Mark of its old state, and the count/history invariant is kept |
| Boards.Board.IsWinningMove | board.py:60-73 | the result is is_winner of the board with the move marked; the receiving board is not modified (no modifies clause) |
| Boards.Board.CollectNeighbours | board.py:101-119 | the nested loop yields NeighbourCells of the board |
| Boards.Board.WinningFirst | board.py:121-128 | the second loop yields Arranged over the moves, with the winning moves as the front set |
| Boards.Board.GetPotentialMoves | board.py:92-128 | get_potential_moves returns PotentialMoves of the board |
| Boards.Board.ScanSide | board.py:243-263 | one while loop of evaluate_direction adds SideScan's count to the shared counter and reports SideBlocked |
| Boards.Board.EvaluateDirection | board.py:223-283 | evaluate_direction returns DirectionScore |
| Boards.Board.EvaluateLineWithDefense | board.py:177-205 | evaluate_line_with_defense returns LineScore |
| Boards.Board.EvaluateCell | board.py:163-173 | the direction loop for one empty cell sums its four line scores and records only keys of cells up to this one |
| Boards.Board.EvaluateBoard | board.py:130-175 | evaluate_board returns BoardScore: +100000 if the player has a line (checked first), -100000 if the opponent has one, otherwise the sum over every empty cell and the four directions |
| Boards.FreshKey | board.py:164-167 | the key of the next line is never already evaluated, so the `already_evaluated` test never skips anything |
| Search.Max | player.py:120 | `max` is an upper bound of both arguments and one of them |
| Search.Min | player.py:146 | `min` is a lower bound of both arguments and one of them |
| Search.Candidates | player.py:97-102 | a node's candidates are distinct, in range and valid moves |
| Search.AlphaBeta | player.py:78-154 | definition: a leaf is scored by evaluate_board with no move, otherwise the maximizing or minimizing loop over the candidates from the full window; the lemmas below state its properties |
| Search.MaxLoop | player.py:104-128 | definition: the maximizing loop, with strict `>`, alpha raised and a break once beta <= alpha; Search.MaxLoopFailSoft, MaxLoopMove, MaxLoopBestMove and MaxLoopFirstBest state its properties |
| Search.MinLoop | player.py:130-154 | definition: the minimizing loop, with strict `<`, beta lowered and a break once beta <= alpha; Search.MinLoopFailSoft, MinLoopMove and MinLoopFirstBest state its properties |
| Search.AlphaBetaFailSoft | player.py:104-154 | for every window with alpha < beta, the pruned value is an upper bound of the unpruned value when at most alpha, exact inside the window, and a lower bound when at least beta |
| Search.MaxLoopFailSoft | player.py:104-128 | the maximizing loop, from any consistent state, returns a value fail-soft against the true maximum of the children |
| Search.MinLoopFailSoft | player.py:130-154 | the minimizing loop, from any consistent state, returns a value fail-soft against the true minimum of the children |
| Search.AlphaBetaSound | player.py:78-154 | the pruned value equals the unpruned minimax value when that lies strictly inside (alpha, beta), is at most alpha when it is, and at least beta when it is |
| Search.RootValue | player.py:56-64 | with the window (-inf, inf) that make_move uses, the pruned value is the unpruned minimax value |
| Search.MaxLoopMove | player.py:104-128 | the maximizing loop returns its starting move or one of the moves it tried, and its starting value when it chose none |
| Search.MinLoopMove | player.py:130-154 | the minimizing loop returns its starting move or one of the moves it tried, and its starting value when it chose none |
| Search.BestMoveIsCandidate | player.py:89-154 | a leaf returns no move; any returned move is a candidate of the node; a node that returns none has value -inf (maximizing) or inf (minimizing) |
| Search.MaxLoopBestMove | player.py:116-122 | the move the maximizing loop keeps has a true value fail-soft against the loop's value |
| Search.MaxLoopFullStep | player.py:116-128 | one iteration of the maximizing loop under the window (-inf, inf): the child's search value is fail-soft for its true value, the loop ends on +inf and otherwise continues with the new best value as alpha |
| Search.MaxLoopFirstBest | player.py:116-122 | under the window (-inf, inf) the maximizing loop keeps its starting value and move (returned index = number of moves), or returns the move at the returned index with a larger value, every child before it having a strictly smaller true value |
| Search.MinLoopFullStep | player.py:142-154 | one iteration of the minimizing loop under the window (-inf, inf): the child's search value is fail-soft for its true value, the loop ends on -inf and otherwise continues with the new best value as beta |
| Search.MinLoopFirstBest | player.py:142-148 | under the window (-inf, inf) the minimizing loop keeps its starting value and move (returned index = number of moves), or returns the move at the returned index with a smaller value, every child before it having a strictly larger true value |
| Search.RootMoveFirst | player.py:104-128 | at the full window the move a maximizing node returns is the first candidate reaching its value: every earlier candidate has a strictly smaller true value |
| Search.MinMoveFirst | player.py:130-154 | at the full window the move a minimizing node returns is the first candidate reaching its value: every earlier candidate has a strictly larger true value |
| Search.RootMoveOptimal | player.py:104-128 | at the full window a maximizing node that returns a move returns a candidate whose unpruned child value equals the node's value, which is the plain minimax value |
| Search.MinNodeAboveLeaves | player.py:130-154 | a minimizing node just above the depth bound never has the value -inf |
| Search.SearchFindsMove | player.py:97-128 | two levels above the depth bound, a maximizing node returns a move iff it is not a leaf and has a candidate |
| Players.Player.constructor | player.py:11-13 | a player keeps its name and symbol |
| Players.AIPlayer.constructor | player.py:41-46 | keeps the name, symbol and difficulty, which defaults to 2 when omitted; the opponent symbol is "O" for "X" and "X" otherwise, never the player's own |
| Players.AIPlayer.Minimax | player.py:78-154 | minimax over deep copies of the board returns exactly AlphaBeta's value and move |
| Players.AIPlayer.MaxSearch | player.py:104-128 | the maximizing loop, with its strict `>` and break, returns MaxLoop's value and move |
| Players.AIPlayer.MinSearch | player.py:130-154 | the minimizing loop, with its strict `<` and break, returns MinLoop's value and move |
| Players.AIPlayer.MakeMove | player.py:48-67 | make_move decides as Decide does: random at difficulty 0; the centre on an unmarked board at difficulty 1 or 2; otherwise the search's move, or failure when it finds none |
| Players.FirstMoveIsCentre | player.py:52-55 | on an unmarked board difficulty 1 or 2 chooses `(rows // 2, cols // 2)` without searching, and that cell is free |
| Players.Decide | player.py:48-67 | definition: make_move's branches as a decision; Players.FirstMoveIsCentre, ChosenMoveOptimal and SearchFailsIff state its properties, Players.AIPlayer.MakeMove is proved equal to it |
| Players.ChosenMoveOptimal | player.py:56-67 | once a cell is marked, a chosen move is a valid candidate whose minimax value is the position's value, and every candidate listed before it has a strictly smaller value (the first best candidate) |
| Players.SearchFailsIff | player.py:56-66 | once a cell is marked, make_move raises exactly when the board is already won or has no free 8-neighbour of a played cell |
| Games.GameOutcome | game.py:29-42 | the round is over iff the board is terminal; player 1 wins iff they have a line, and player 2 wins iff player 1 has none and player 2 has one |
| Games.NoWinnerUnreachable | game.py:35-41 | with the players on different symbols, a finished round always has a winner: the None branch is unreachable |
| Games.Next | game.py:22-27 | the turn passes from player 1 to player 2 and from anyone else to player 1 |
| Games.SwitchTwiceRestores | game.py:22-27 | two switches give the turn back to whichever player had it |
| Games.Game.constructor | game.py:9-20 | the player holding "X" moves first; no winner; the round is running |
| Games.Game.SwitchTurns | game.py:22-27 | the turn passes to the other player; winner and running unchanged |
| Games.Game.SwitchTwice | game.py:22-27 | two calls of switch_turns restore the player to move |
| Games.Game.IsGameOver | game.py:29-42 | the result is true iff the board is terminal, and then the winner is set with player 1 checked first; otherwise nothing changes |
| Games.Game.WinnerOf | game.py:35-41 | the player an outcome names as winner, None for no winner |
| Hashing.XorSelf | hashing.py:32 | a value XOR itself is 0 |
| Hashing.XorCommutes | hashing.py:32 | XOR is commutative |
| Hashing.XorAssociates | hashing.py:32 | XOR is associative |
| Hashing.IndexOf | hashing.py:4-11 | "X" maps to 0, "O" to 1 and the empty cell to -1, each iff |
| Hashing.InitTable | hashing.py:19-21 | initTable builds `cols` lists of `rows` lists of two entries, each entry the draw for its place, at most 2^64 |
| Hashing.TableList | hashing.py:20 | one list of the table has `rows` pairs of draws |
| Hashing.TableFitsBoard | hashing.py:19-21 | a table built for a square board has an entry for every cell and both symbols |
| Hashing.Hash | hashing.py:24-32 | definition: the XOR over the grid's lists, in order, of the XOR of the table entries of their occupied cells; the update lemmas below state its properties and Hashing.ComputeHash is proved equal to it |
| Hashing.ComputeHash | hashing.py:24-32 | the nested loop returns Hash, the XOR of the table entries of the occupied cells |
| Hashing.EmptyGridHashesToZero | hashing.py:24-32 | a grid without X or O hashes to 0 |
| Hashing.NewBoardHashesToZero | hashing.py:24-32 | a new board hashes to 0 |
| Hashing.RowHashUpdate | hashing.py:26-32 | changing one cell of a list changes its hash by the XOR of the old and the new contribution |
| Hashing.GridHashUpdate | hashing.py:26-32 | changing one cell changes the grid hash by the XOR of the old and the new contribution |
| Hashing.PlaceToggles | hashing.py:24-32 | placing a symbol on an empty cell XORs that cell's entry for the symbol into the hash |
| Hashing.ClearToggles | hashing.py:24-32 | clearing a marked cell XORs its entry out again |
| Hashing.MakeUndoRestores | hashing.py:24-32 | making a move and undoing it restores the hash, both through the two XOR updates and from the restored grid |
| Hashing.MarkToggles | hashing.py:24-32 | mark_cell on an empty cell XORs the symbol's entry for that cell into the board's hash |
| Hashing.MarksOnDistinctCellsCommute | hashing.py:24-32 | marks on distinct cells commute: marking them in either order gives the same grid, and so the same hash |
| Patterns.Pass | utils.py:5-46 | definition: the 22 assignments of one side, in the program's order, with blocker `y`; Patterns.OnePass and Patterns.IntendedOnePass state what one pass leaves |
| Patterns.PatternDict | utils.py:1-48 | definition: the two passes for -1 and 1 with `y = i`; the lemmas below state its keys and values |
| Patterns.CreatePatternDict | utils.py:1-48 | the loop of 22 successive assignments per side returns PatternDict |
| Patterns.OnePass | utils.py:5-46 | with `y = i` one pass adds that side's 21 surviving entries to the table, later assignments overwriting earlier ones |
| Patterns.PatternDictEntries | utils.py:4-46 | the table is exactly the opponent's survivors and the player's |
| Patterns.Codes | utils.py:7-46 | every key has four to seven codes |
| Patterns.SurvivorsOwned | utils.py:5-46 | because `y = i`, every key of a side holds only 0 and that side's code, and at least one of the latter |
| Patterns.SidesDisjoint | utils.py:5-46 | the player's half and the opponent's half of the table share no key |
| Patterns.OpponentSideNegates | utils.py:4-46 | every opponent key negates to a player key holding the negated value |
| Patterns.PlayerSideNegates | utils.py:4-46 | every player key negates to an opponent key holding the negated value |
| Patterns.NegationSymmetric | utils.py:4-46 | for every key k of the table, -k is a key holding the negated value |
| Patterns.SurvivorCount | utils.py:7-46 | 22 assignments for one side leave 21 distinct keys |
| Patterns.KeyCount | utils.py:7-46 | the table has 42 keys |
| Patterns.SurvivorsBounded | utils.py:7-46 | every surviving value of a side lies within ±100000 |
| Patterns.FinalValue | utils.py:4-46 | a side's surviving entry is the entry of the final table |
| Patterns.FinalValues | utils.py:10-46 | final values: `(0,i,i,i,i,0)` is 100000·i, `(0,i,i,i,i,i)` 10000·i, `(i,i,i,i,i,i)` -10·i, `(0,i,i,i,0)` 1000·i and `(i,i,i,i)` -10·i |
| Patterns.FiveInRowOverwritten | utils.py:7-34 | `(i,i,i,i,i)` is set to 1000000·i but ends as -10·i; no value of magnitude 1000000 survives |
| Patterns.IntendedOnePass | utils.py:5-46 | with `y = -i` one pass adds that side's 22 entries to the table |
| Patterns.IntendedEntries | utils.py:4-46 | the intended table is both sides' 22 entries |
| Patterns.IntendedCount | utils.py:7-46 | with `y = -i` one side's 22 assignments leave 22 distinct keys |
| Patterns.IntendedKeyCount | utils.py:7-46 | the intended table has 44 keys |
| Patterns.IntendedOwnedInside | utils.py:5-46 | with `y = -i` the blockers stand at the ends only: the interior of every key of a side holds only 0 and that side's code |
| Patterns.IntendedSidesDisjoint | utils.py:5-46 | the two halves of the intended table share no key |
| Patterns.IntendedKeepsFive | utils.py:5-7 | with `y = -i` five in a row keeps its value 1000000·i |
| Patterns.IntendedNegationSymmetric | utils.py:4-46 | the intended table is symmetric under negation too |
| Layout.CellSize | graphics.py:18-32 | calculate_cell_size always lies within 40..700 |
| Layout.CellSizeByLargerSide | graphics.py:24-32 | for a larger side n from 2 to 20 the cell size is 800 // n, from 20 on it is 40, and for n = 1 it is 700 |
| Layout.LineWidth | graphics.py:34-42 | calculate_line_width always lies within 1..10 |
| Layout.LineWidthOfCells | graphics.py:34-42 | for every cell size from 40 to 700 the line width is within 2..10, and 10 from a cell size of 150 |
| Layout.DefaultBoardLayout | main.py:16 | the 19×19 board gets 42-pixel cells, 2-pixel lines and a 798-pixel window |
| Layout.CrossAt | graphics.py:85-111 | definition: draw_cross's two strokes, `cell_size // 5` in from the corners, twice the line width; Layout.CrossInsideCell states where they lie |
| Layout.RingAt | graphics.py:113-127 | definition: draw_circle's ring, centred by `cell_size // 2` offsets with radius `cell_size // 3`, twice the line width; Layout.RingInsideCell states where it lies |
| Layout.CrossInsideCell | graphics.py:85-111 | both strokes of a cross end inside the cell, run corner to corner symmetric about the centre, and mirror each other |
| Layout.RingInsideCell | graphics.py:113-127 | a circle, centred by `cell_size // 2` offsets with radius `cell_size // 3`, stays inside its cell |
| Layout.Graphics.constructor | graphics.py:6-16 | the cell size and line width are computed from the board, the width is `cols * cell_size` and the height `rows * cell_size` |

## Left out

- Randomness: the values `randomInt` draws (hashing.py:14-17) enter `InitTable` as a parameter `draw` bounded by 2^64. `AI_Player.random_move` (player.py:69-71) becomes the decision `RandomFrom(empty cells)`, without the choice itself.
- Printing: `print_depth` (player.py:73-76) and the module-level `initTable`/`print` (hashing.py:35-36).
- The pygame user interface:
  - `initialize_screen`, `display_grid_lines`, `display_pieces`, the drawing calls themselves, `draw_button`, `choose_symbol` and `wait_for_restart_or_quit` (graphics.py:44-219); only the coordinates and widths of `draw_cross`/`draw_circle` are modelled;
  - the colours of `Graphics`;
  - `User_Player.make_move` (player.py:25-35);
  - `Game.play` and `play_again` (game.py:44-72);
  - main.py.

  `display_pieces` reads a `board_map` attribute the board does not have (graphics.py:80), and `User_Player` calls a `valid_move` method that does not exist (player.py:34).
- Floating point: `float("±inf")` and `float("±100000")` are modelled as sentinels and integers, with no IEEE behaviour.
- `copy.deepcopy` is modelled by value semantics: `Board.Copy` and the board values of `Search`.
- Python's set iteration order in `get_potential_moves` (board.py:122) is modelled as order of first insertion. The proved properties (membership, distinctness, winners first) do not depend on the order; the order of equally ranked moves, and hence which of two equally good moves the search picks, does.
- Non-square boards: `create_board` builds `cols` lists of `rows` cells but every access reads `board[row][col]`, so the model requires `rows == cols` (`Cells.WellFormed`, `Boards.Board.constructor`).
- Boards.Board.MarkCell: requires the position to be in range; the program raises IndexError or wraps negative indices otherwise.
- Players.AIPlayer.Minimax: requires `depth <= max_depth`, as every call in the program has; a deeper start would never reach the depth test.
- Symbols are only "X" and "O" (`Cells.Symbol`). The program accepts any string; `Opponent` maps every non-"X" symbol to "X", which the model keeps.
- Games.Game.IsGameOver: on a non-terminal board the program returns None; the model returns false.
- `AI_Player` is modelled as its own class `Players.AIPlayer`, not as a subtype of `Player`. The abstract `Player.make_move` is left out, and `Game` holds `Player` objects, so it does not dispatch to `AIPlayer.MakeMove`.
- Hashing.ComputeHash: requires a rectangular grid and a table with an entry for every cell and both symbols. The program reads `len(board[0])` for every row (hashing.py:28), so a ragged grid raises IndexError or is hashed only in part, and a smaller table raises IndexError. Every `Board` grid is rectangular. A table from `initTable(rows, cols)` for a square board always fits (`Hashing.TableFitsBoard`).
- Hashing.InitTable: models the shape of the table, not the random values.
- Layout.CellSize: requires a board with at least one row or column; on a 0×0 board `800 // max(rows, cols)` raises ZeroDivisionError, which the model does not represent.
- Layout.Graphics.constructor: requires the same non-empty board, for the same reason.
- The loops of `evaluate_direction`, `evaluate_board` and `get_potential_moves` are split into helper methods (`ScanSide`, `EvaluateCell`, `CollectNeighbours`, `WinningFirst`) that run the same statements in the same order.
- specifikation.py is an earlier draft that is superseded by board.py, player.py and game.py, so it is not part of this model. test_hashing_extended.py and test.py target an interface the sources do not have, so they are not modelled either; the make/undo hash round trip they check is proved instead as `Hashing.MakeUndoRestores`.
- `is_terminal` never consults `board_full` (board.py:89), so a full board without a line is not terminal (`Lines.FullBoardWithoutLineNotTerminal`).
- The pattern table of utils.py is built but never read; the evaluation is the run-length heuristic of board.py.
- The search deep-copies the board for each child (player.py:108 and player.py:134), which `Players.AIPlayer.MaxSearch` and `MinSearch` model with `Board.Copy`.
- The pattern table's five-in-a-row entry is overwritten (see Findings).

## Findings

| source | as written | input that shows it | evidently intended | confidence | as-written member | corrected member |
|---|---|---|---|---|---|---|
| utils.py:5 | `y = i`: the "blocked" keys use the side's own code as the blocker, so `(y,i,i,i,y)` at utils.py:34 is `(i,i,i,i,i)` and overwrites the five-in-a-row entry of utils.py:7 | either pass, e.g. `i = 1`: key `(1,1,1,1,1)` ends as -10 instead of 1000000, and each pass leaves 21 keys instead of 22 | `y = -i` (blocked by the other side's stone): five in a row keeps 1000000·i and all 44 keys are distinct | not executed | Patterns.FiveInRowOverwritten | Patterns.IntendedKeepsFive |

The corrected table is `Patterns.IntendedPatternDict`. The proofs about it are `IntendedKeepsFive`, `IntendedKeyCount`, `IntendedSidesDisjoint` and `IntendedNegationSymmetric`. No other part of the program reads the table, so no other module depends on the choice.
