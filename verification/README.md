# Competitive Sudoku agents: a Dafny model

This project models the move-search engine of the competitive Sudoku agents in
chaogo/2AMU10. Two players take turns filling empty cells of an N x N board,
N = m * n, split into blocks of m rows and n columns. A move scores 0, 1, 3 or 7
points when it completes 0, 1, 2 or 3 of its row, its column and its block. The
agents search for a good move and propose it again and again while the time
budget lasts.

The modules follow the agents:

- `Grid`: the board (`seq<seq<int>>`, 0 for an empty cell), `board.put`, and rectangles of cells.
  Rows, columns and blocks are all rectangles.
- `RegionIndex` (Team6_A2): `empty_cells_each_region`, the per-region counters of empty cells.
  Also the placement half of `move_and_calculate_score` and `move_back`.
- `Scoring`:
  - Team6_A2's `calculate_heuristic_score` and `move_and_calculate_score`.
  - Team6_A0's `calculate_move_score`.
- `LegalMoves`: the brute-force `get_all_legal_moves` (the same code in Team6_A0 and Team6_A2).
- `MissingSets` (Team6_A3): `get_initial_legal_moves`, built from the missing numbers of every region.
- `ExtReal`: the numbers the searches compare, which are reals together with `-inf` and `inf`.
- `AlphaBeta`, `AlphaBetaProofs`, `Deepening` (Team6_A2):
  - `minimax` with alpha-beta pruning and the iterative-deepening root of `compute_best_move`.
  - A plain minimax reference, and proofs relating the two.
- `WindowCounterexample`: a concrete board on which Team6_A2's `minimax` differs from plain minimax.
- `Pruning` (Team6_A0): `minimax` with `parent_move_score`, the root's `best_move`, and the proposals of `compute_best_move`.
- `PruningCounterexample`: a concrete board on which Team6_A0 proposes a move other than the one its root search records.
- `MonteCarlo` (Team6_A3): the bookkeeping of `MonteCarloTreeSearchNode`, and the player to move.

## Model

| member | source | states |
|---|---|---|
| Grid.Put | Team6_A2/sudokuai.py:74 | `board.put(i, j, v)` writes `v` at (i, j) and leaves every other cell as it was |
| Grid.PutBack | Team6_A0/sudokuai_pruning.py:165 | putting back the value a cell held restores the board exactly |
| RegionIndex.TrueCounters | Team6_A2/sudokuai.py:25-52 | the counters defined region by region count the empty cells of every row, column and block |
| RegionIndex.ConsistentUnique | Team6_A2/sudokuai.py:25-52 | a board has exactly one set of counters that count it |
| RegionIndex.EmptyCellsEachRegion | Team6_A2/sudokuai.py:25-52 | the three scans return counters that count the board, and they are the only ones that do |
| RegionIndex.CountRows | Team6_A2/sudokuai.py:26-31 | the row scan gives, for every row, its number of empty cells |
| RegionIndex.CountCols | Team6_A2/sudokuai.py:33-38 | the column scan gives, for every column, its number of empty cells |
| RegionIndex.CountCol | Team6_A2/sudokuai.py:36-38 | the inner column loop counts the empty cells of column j |
| RegionIndex.CountBlocks | Team6_A2/sudokuai.py:40-50 | the block scan over corners (r, c) numbers blocks left to right, top to bottom, and counts each block's empty cells |
| RegionIndex.CountBlock | Team6_A2/sudokuai.py:46-49 | the two inner loops count the empty cells of one block |
| RegionIndex.CountSlice | Team6_A2/sudokuai.py:47-49 | the innermost loop counts the zeros of a row slice |
| RegionIndex.BlockCorner | Team6_A2/sudokuai.py:43-50 | the block visited with corner (br*m, bc*n) is block number br*m + bc, and it lies on the board |
| RegionIndex.MoveBackAfterPlace | Team6_A2/sudokuai.py:54-78 | placing on an empty cell and then `move_back` restores the board and all three counter arrays |
| RegionIndex.PlaceConsistent | Team6_A2/sudokuai.py:73-78 | placing a number on an empty cell and decrementing its three counters keeps the counters counting the board |
| RegionIndex.MoveBackConsistent | Team6_A2/sudokuai.py:54-62 | clearing a filled cell and incrementing its three counters keeps the counters counting the board |
| RegionIndex.PutKeepsConsistent | Team6_A2/sudokuai.py:54-78 | any write of one cell keeps the counters counting the board, once the cell's three counters move by the change in emptiness |
| Scoring.Points | Team6_A2/sudokuai.py:185 | `points_rule` gives 2^k - 1 points for k completed regions |
| Scoring.Heuristic | Team6_A2/sudokuai.py:64-67 | the heuristic is in [-1, 1]: positive for an even count of empty cells, negative for an odd count, and 1 when none is left |
| Scoring.MeanHeuristic | Team6_A2/sudokuai.py:82-84 | the mean of three heuristics stays in [-1, 1] |
| Scoring.Evaluation | Team6_A2/sudokuai.py:80-98 | a score is in [-15, 15], in [-1, 1] when no region is completed, at least -1 for the maximizer and at most 1 for the minimizer |
| Scoring.MoveAndCalculateScore | Team6_A2/sudokuai.py:69-98 | the move is placed with its three counters decremented, and the score lies in [-15, 15] |
| Scoring.ScoreMeaning | Team6_A2/sudokuai.py:69-98 | on counters that count the board, the score is the mean heuristic of the true empty counts plus twice the points of the regions the move completes, negated for the minimizer |
| Scoring.CountersOfCell | Team6_A2/sudokuai.py:81-89 | counters that count the board give the mean heuristic of the true empty counts, and the number of counters at 0 is the number of full regions around the cell |
| Scoring.ScanFilled | Team6_A0/sudokuai_pruning.py:43-70 | a scan's flag is 1 exactly when the region holds no empty cell, and 0 otherwise |
| Scoring.ScanIsFull | Team6_A0/sudokuai_pruning.py:47-70 | the row, column and block scans each decide whether their region is full |
| Scoring.CalculateMoveScore | Team6_A0/sudokuai_pruning.py:34-97 | the move is placed, and the score is the points for the full regions around the cell, negated for the minimizer |
| Scoring.ScorersAgree | Team6_A2/sudokuai.py:80-92 | Team6_A2's score equals the signed mean heuristic plus twice Team6_A0's score for the same move |
| LegalMoves.RowScan | Team6_A2/sudokuai.py:116-120 | the row loop finds the value exactly when some cell of the row holds it |
| LegalMoves.ColScan | Team6_A2/sudokuai.py:122-127 | the column loop finds the value exactly when some cell of the column holds it |
| LegalMoves.BlockScan | Team6_A2/sudokuai.py:129-139 | the block loop finds the value exactly when some cell of the cell's block holds it |
| LegalMoves.AdmissibleIsLegal | Team6_A2/sudokuai.py:110-143 | a candidate passes the three scans exactly when it is a legal move |
| LegalMoves.CellMoves | Team6_A2/sudokuai.py:104-106 | the candidates of one cell from value v on are exactly its legal moves with a value of at least v, in increasing order |
| LegalMoves.GetAllLegalMoves | Team6_A2/sudokuai.py:101-145 | the result holds exactly the legal moves (empty cell, value in 1..N, not taboo, no clash in row, column or block), each once, in generator order |
| LegalMoves.GeneratorOrder | Team6_A2/sudokuai.py:104-106 | any increasing list that holds exactly the legal moves is the generator's output |
| LegalMoves.FirstLegalMove | Team6_A2/sudokuai.py:104-106 | when (0, 0, 1) is legal, it is the first move generated |
| MissingSets.UpTo | Team6_A3/sudokuai.py:35 | `set(range(1, N + 1))` holds exactly the numbers 1..N |
| MissingSets.RemoveEach | Team6_A3/sudokuai.py:36-41 | removing a region's numbers succeeds exactly when no number repeats and each is in the set, and then leaves the missing numbers |
| MissingSets.MissingEach | Team6_A3/sudokuai.py:33-71 | the missing sets of a list of regions are built exactly when no region raises, and each is 1..N minus the region's numbers |
| MissingSets.Blocks | Team6_A3/sudokuai.py:55-71 | blocks are numbered left to right, then top to bottom, and all lie on the board |
| MissingSets.MissingIff | Team6_A3/sudokuai.py:77-79 | a number is missing from a region exactly when it is in 1..N and no cell of the region holds it |
| MissingSets.CombineIsLegal | Team6_A3/sudokuai.py:73-84 | intersecting the three missing sets of every empty cell and dropping taboo moves gives exactly the legal moves |
| MissingSets.GetInitialLegalMoves | Team6_A3/sudokuai.py:19-84 | it raises exactly on boards where some region repeats a number or holds one outside 1..N, and otherwise returns exactly the moves of `get_all_legal_moves` |
| ExtReal.Max | Team6_A2/sudokuai.py:164 | `max` is an upper bound of both arguments and one of them |
| ExtReal.Min | Team6_A2/sudokuai.py:178 | `min` is a lower bound of both arguments and one of them |
| AlphaBeta.LegalOnEmptyCells | Team6_A2/sudokuai.py:104-106 | every generated move puts a non-zero number on an empty cell of the board |
| AlphaBeta.Search | Team6_A2/sudokuai.py:147-183 | `minimax` hands back the board and counters it received, returns a finite value, and returns 0 at depth 0 or when there is no legal move |
| AlphaBeta.SearchLoop | Team6_A2/sudokuai.py:156-183 | the move loop hands back the position it received, and its value is finite once a move has been looked at |
| AlphaBeta.TryMove | Team6_A2/sudokuai.py:159-166 | placing a move, searching the reply and `move_back` restore the position, and the evaluation is finite |
| AlphaBeta.PlainFrom | Team6_A2/sudokuai.py:147-183 | plain minimax over the remaining moves is finite when a move remains |
| AlphaBetaProofs.ShiftedSound | Team6_A2/sudokuai.py:147-183 | with the child window shifted by the move's score, the search is fail-soft against plain minimax on every non-empty window |
| AlphaBetaProofs.TryMoveSound | Team6_A2/sudokuai.py:161-166 | one move's evaluation in the shifted search is fail-soft against its plain evaluation |
| AlphaBetaProofs.MaxLoopSound | Team6_A2/sudokuai.py:156-170 | the maximizer's loop with a shifted child window is fail-soft against the plain maximum of the evaluations |
| AlphaBetaProofs.MinLoopSound | Team6_A2/sudokuai.py:172-183 | the minimizer's loop with a shifted child window is fail-soft against the plain minimum of the evaluations |
| AlphaBetaProofs.CorrectedIsPlain | Team6_A2/sudokuai.py:147-183 | from the window (-inf, inf), the search with a shifted child window returns exactly the plain minimax value |
| AlphaBetaProofs.MaxNodeAtLeast | Team6_A2/sudokuai.py:156-170 | a maximizer's plain value is at least the evaluation of each of its legal moves |
| AlphaBetaProofs.MaxNodeAtMost | Team6_A2/sudokuai.py:156-170 | a maximizer's plain value is at most any non-negative bound on the evaluations of its legal moves |
| AlphaBetaProofs.MinNodeAtLeast | Team6_A2/sudokuai.py:172-183 | a minimizer's plain value is at least any non-positive bound below the evaluations of its legal moves |
| AlphaBetaProofs.LastPlyEval | Team6_A2/sudokuai.py:147-149 | one ply above the horizon, a move's evaluation is its score alone, on any window |
| AlphaBetaProofs.ShallowMaxSearch | Team6_A2/sudokuai.py:156-170 | a maximizer's search of depth 1, as written or corrected, is never above the plain value |
| Deepening.ScanStep | Team6_A2/sudokuai.py:200-202 | a move replaces the best move only when its evaluation is strictly larger, so the best move stays the first largest |
| Deepening.RootEvals | Team6_A2/sudokuai.py:196-199 | the root evaluates every legal move to a finite value |
| Deepening.RootLoop | Team6_A2/sudokuai.py:195-203 | the root loop settles on the first move of largest evaluation and restores the position |
| Deepening.BestAtDepth | Team6_A2/sudokuai.py:193-204 | the move proposed after one depth is the first of largest evaluation at that depth |
| Deepening.Deepen | Team6_A2/sudokuai.py:188-204 | there are 50 proposals: `moves[0]`, then the choice at each depth 1..49 |
| Deepening.ComputeBestMove | Team6_A2/sudokuai.py:186-204 | with no legal move, `moves[0]` raises; otherwise it proposes `moves[0]` and then the choice at each depth 1..49, on freshly counted regions |
| Deepening.CorrectedRootIsPlain | Team6_A2/sudokuai.py:196-199 | with the shifted window, the root evaluates every move to its score plus the plain value of the reply |
| Deepening.CorrectedChoiceIsPlainBest | Team6_A2/sudokuai.py:193-204 | with the shifted window, every proposal is a legal move whose plain evaluation is the largest |
| WindowCounterexample.MovesAtStart | Team6_A2/sudokuai.py:101-145 | on the counterexample board the legal moves are (0,0,1), (0,1,2), (0,2,3), (3,0,4), in that order |
| WindowCounterexample.AsWrittenAtMost | Team6_A2/sudokuai.py:172-183 | on that board the minimizer's search as written, at depth 2, is at most -38/9 |
| WindowCounterexample.PlainAtLeast | Team6_A2/sudokuai.py:172-183 | on that board plain minimax at depth 2 is at least -4/9 |
| WindowCounterexample.WindowDiscrepancy | Team6_A2/sudokuai.py:163-183 | on that board the search as written differs from plain minimax, and the shifted search equals it |
| Pruning.TrackStep | Team6_A0/sudokuai_pruning.py:162-164 | the root's `best_move` stays the first move of largest evaluation: only a strictly larger evaluation replaces it |
| Pruning.StepKeeps | Team6_A0/sudokuai_pruning.py:155-180 | one iteration keeps the running best as the best of the evaluations so far; the maximizer leaves beta alone and the minimizer leaves alpha alone |
| Pruning.Minimax | Team6_A0/sudokuai_pruning.py:146-182 | the board comes back unchanged (each move is undone with `board.put(i, j, 0)`), the value is finite, 0 at depth 0 or without a legal move, and only a first-time maximizer call changes `best_move` |
| Pruning.MinimaxLoop | Team6_A0/sudokuai_pruning.py:158-181 | the move loop hands back the board it received, and its value is finite once a move has been looked at |
| Pruning.Evaluate | Team6_A0/sudokuai_pruning.py:159-165 | scoring the move, searching the reply with the score as `parent_move_score`, and `board.put(i, j, 0)` restore the board |
| Pruning.LoopUnfolds | Team6_A0/sudokuai_pruning.py:158-168 | an iteration evaluates the move, updates the window with the evaluation plus `parent_move_score`, and breaks once beta <= alpha |
| Pruning.CutResult | Team6_A0/sudokuai_pruning.py:166-168 | a loop that breaks has looked at one more evaluation, and it cannot break while its far bound is infinite |
| Pruning.LoopMeaning | Team6_A0/sudokuai_pruning.py:155-182 | the loop's value is the best of the evaluations it looked at; a first-time maximizer records the first largest; a loop whose far bound is infinite looks at every move |
| Pruning.MinimaxMeaning | Team6_A0/sudokuai_pruning.py:146-182 | above the horizon with a legal move, the value is the best of between 1 and |moves| evaluations, and every move is looked at while the far bound is infinite |
| Pruning.RootSearch | Team6_A0/sudokuai_pruning.py:190 | the root call leaves the board unchanged |
| Pruning.RootChoosesFirstMaximum | Team6_A0/sudokuai_pruning.py:154-170 | the root looks at every legal move, records the first move of largest evaluation in the global `best_move`, and returns that evaluation |
| Pruning.DeepenAsWritten | Team6_A0/sudokuai_pruning.py:189-191 | as written, every depth proposes the local `best_move`, which stays `moves[0]` |
| Pruning.DeepenCorrected | Team6_A0/sudokuai_pruning.py:189-191 | corrected, the proposal after depth d is the root's choice at depth d |
| Pruning.ProposalsAsWritten | Team6_A0/sudokuai_pruning.py:184-191 | `moves[0]` raises exactly when there is no legal move; otherwise all 19 proposals are `moves[0]` |
| Pruning.ProposalsCorrected | Team6_A0/sudokuai_pruning.py:184-191 | `moves[0]` first, then the first move of largest evaluation at each depth 2..19 |
| Pruning.ProposalsAgreeIff | Team6_A0/sudokuai_pruning.py:154-191 | the two proposal lists agree exactly when `moves[0]` is the root's choice at every depth 2..19 |
| PruningCounterexample.Score | Team6_A0/sudokuai_pruning.py:34-97 | on a 4 x 4 board with 2 x 2 blocks, a placement earns the points for those of its row, its column and its block that hold no empty cell afterwards, negated for the minimizer |
| PruningCounterexample.MovesOnStart | Team6_A0/sudokuai_pruning.py:100-145 | on the board with rows `. . 3 4`, `3 4 1 2`, `2 1 4 3`, `4 3 2 .` the legal moves are (0,0,1), (0,1,2), (3,3,1), in that order |
| PruningCounterexample.UniformSearch | Team6_A0/sudokuai_pruning.py:146-182 | one ply above the horizon, a search whose two legal moves score the same returns that score, whatever its window and whether or not it breaks |
| PruningCounterexample.EvalFirst | Team6_A0/sudokuai_pruning.py:158-165 | on that board (0,0,1) scores 1 and every reply completes three regions, so its evaluation at depth 2 is -6 on any window |
| PruningCounterexample.EvalThird | Team6_A0/sudokuai_pruning.py:158-165 | (3,3,1) scores 7 and every reply completes one region, so its evaluation at depth 2 is 6 on any window |
| PruningCounterexample.ThreeMoveRoot | Team6_A0/sudokuai_pruning.py:155-169 | a first-time maximizer over three moves from (-inf, inf) records the third when the second evaluation does not beat the first and the third does |
| PruningCounterexample.RootRecordsThird | Team6_A0/sudokuai_pruning.py:189-190 | on that board the root search at depth 2 leaves (3,3,1) in the global `best_move` |
| PruningCounterexample.ProposalsDiffer | Team6_A0/sudokuai_pruning.py:184-191 | on that board the proposal after depth 2 is (0,0,1) as written and (3,3,1) corrected |
| MonteCarlo.NewNode | Team6_A3/MonteCarlo.py:6-21 | a new node has no visits, every tally at 0 (so `q()` is 0), no children, and untried actions equal to the state's legal actions |
| MonteCarlo.Expand | Team6_A3/MonteCarlo.py:53-61 | `pop()` raises exactly on a fully expanded node; otherwise the last untried action is removed and one new child is appended, whose `parent_action` is that action; nothing else of the node changes (the game state is taken to be unaffected by the `pop()`, see "## Left out") |
| MonteCarlo.ExpandMovesOneAction | Team6_A3/MonteCarlo.py:53-61 | expansion leaves one untried action fewer and one child more, and every action stays accounted for (untried or the action of a child) |
| MonteCarlo.Backpropagate | Team6_A3/MonteCarlo.py:85-89 | the node and each ancestor count one more visit and one more of the result; no other tally changes, and the children off the path are untouched |
| MonteCarlo.BackpropagateTouchesOnlyPath | Team6_A3/MonteCarlo.py:85-89 | every node on the path to the root is updated, and every other node of the tree is unchanged |
| MonteCarlo.BackpropagateQ | Team6_A3/MonteCarlo.py:23-26 | after backpropagation `q()` rises by 1 for a win, falls by 1 for a loss, and stays the same otherwise |
| MonteCarlo.Argmax | Team6_A3/MonteCarlo.py:66 | `np.argmax` returns the first index of a largest weight |
| MonteCarlo.BestChild | Team6_A3/MonteCarlo.py:64-66 | with c = 0: fails exactly when there are no children (`np.argmax([])`) or a child was never visited (division by zero); otherwise, at a node with at least one visit, the first child of largest `q() / n()`, and at an unvisited node index 0 (`np.log(0)` makes every weight NaN and `np.argmax` picks the first) |
| MonteCarlo.BestChildOnSearchTree | Team6_A3/MonteCarlo.py:64-66 | on a tree the search built, selection at a node with children succeeds and picks the first child of largest `q() / n()` |
| MonteCarlo.TreePolicyDescends | Team6_A3/MonteCarlo.py:33-44 | the tree policy descends only through fully expanded nodes that are not over, and returns either a node whose game is over or a freshly expanded child with no visits |
| MonteCarlo.SimulationKeepsCounts | Team6_A3/sudokuai.py:99-102 | one simulation keeps every node's visits at least the sum of its children's and every non-root node visited, and adds one visit to the root |
| MonteCarlo.PassesKeepCounts | Team6_A3/sudokuai.py:99-102 | over any number of passes, every node keeps at least as many visits as its children together, every node below the root stays visited, and the root gains one visit per pass |
| MonteCarlo.Proposal | Team6_A3/sudokuai.py:106-107 | the proposed `parent_action` exists exactly when `best_child(c_param=0.)` does not raise |
| MonteCarlo.FromNewRoot | Team6_A3/sudokuai.py:93-107 | from the fresh root, after the passes the root has one visit per pass, and once it has a child every child is visited, so the proposal never raises and is the action of the first child of largest `q() / n()` |
| MonteCarlo.ExpansionKeepsCounts | Team6_A3/MonteCarlo.py:53-61 | expanding and backpropagating from the new child keeps the visit counts consistent |
| MonteCarlo.DescentKeepsCounts | Team6_A3/MonteCarlo.py:85-89 | backpropagating through a selected child keeps the visit counts consistent at its parent |
| MonteCarlo.PlayerToMove | Team6_A3/sudokuai.py:90 | the player to move is 1 or 2, and it is 1 exactly after an even number of moves |
| MonteCarlo.PlayersAlternate | Team6_A3/sudokuai.py:90 | each move hands the turn to the other player, and two moves hand it back |

## Left out

- Floating point. Scores, heuristics, `-float('inf')` and `float('inf')` are exact reals, extended with two infinities. Rounding is not modelled.
- Taboo moves are a set of `Move` values given as a parameter. The move history that fills `game_state.taboo_moves` is not modelled.
- `self.propose_move` is replaced by returning the list of proposals in order. The time budget that interrupts `compute_best_move` is not modelled.
- With no legal move, `moves[0]` raises `IndexError`. `Deepening.ComputeBestMove`, `Pruning.ProposalsAsWritten` and `Pruning.ProposalsCorrected` model this as `None`.
- `get_all_legal_moves` reads the row through `game_state.board` and the column and block through `board`. In `compute_best_move` both name the same object, so the model reads one board.
- MissingSets.GetInitialLegalMoves: returns the set of moves. The source returns a list whose order follows Python's set iteration, so the order is not modelled.
- WindowCounterexample.WindowDiscrepancy: stated for the empty taboo set only, which suffices to show the discrepancy.
- Pruning.Minimax: relates the value to the evaluations the loop looked at, not to plain minimax. Team6_A0's window adds `parent_move_score` to each evaluation, and no relation to the plain value is claimed.
- Before the first root call, `minimax`'s global `best_move` does not exist. The first root call assigns `moves[0]` to it before reading it, so the model starts it at `moves[0]`.
- MonteCarlo: the game state (`State`: `move`, `get_legal_actions`, `is_game_over`) is a parameter of the model. `rollout`, `rollout_policy` and `game_result` are left out because they use `np.random`; the rollout's reward is a parameter.
- MonteCarlo: parent links are replaced by paths of child indices from the root, because a node here is a value that holds its children.
- MonteCarlo.TreePolicyDescends: `_tree_policy` selects with `best_child()` and its default `c_param=0.1`, whose UCT term uses `np.sqrt` and `np.log`. The model takes the selection rule as a parameter. `MonteCarlo.BestChild` models `c_param=0.`, which the final choice at Team6_A3/sudokuai.py:106 uses.
- MonteCarlo.Expand: the model assumes that `get_legal_actions()` returns a list the `State` does not keep. At Team6_A3/MonteCarlo.py:20 the node stores that very list object, and `expand()` pops from it at line 54; if the `State` returns its own stored list (Team6_A3/sudokuai.py:92 hands it `init_legal_moves`), each expansion also removes the action from the state's legal moves, which `move` and `is_game_over` may read. `State.py` is not part of this model, so the popped list is a copy of the node's own and the state is left unchanged.
- MonteCarlo.FromNewRoot: the rewards of the passes are a parameter, because the rollout is random; `simulation_no = 1000` is any length of that list.
- MonteCarlo: visit counts and tallies become floats after `+= 1.` in the source. The model keeps them as natural numbers.

## Findings

| source | as written | input that shows it | evidently intended | confidence | as-written member | corrected member |
|---|---|---|---|---|---|---|
| Team6_A2/sudokuai.py:163-183 | The child search receives the parent's window (alpha, beta). Yet the parent's evaluation is `cur_move_score` plus the child's value, so the child prunes against bounds that are off by the move's score. | The 4 x 4 board with rows `. . . 4`, `3 4 1 2`, `2 1 4 3`, `. 3 2 1` (2 x 2 blocks), searched by the minimizer to depth 2 from (-inf, inf). This happens at root depth 3. The search returns at most -38/9, while plain minimax is at least -4/9. | The child's window is (alpha - score, beta - score), which returns exactly the plain minimax value from (-inf, inf) | not executed | WindowCounterexample.WindowDiscrepancy | AlphaBetaProofs.CorrectedIsPlain |
| Team6_A0/sudokuai_pruning.py:154-191 | `global best_move` in the nested `minimax` binds the module-level name. `compute_best_move` assigns and proposes its own local `best_move`, so every depth proposes `moves[0]` again. | The 4 x 4 board with rows `. . 3 4`, `3 4 1 2`, `2 1 4 3`, `4 3 2 .` (2 x 2 blocks). At depth 2 the root records (3,3,1), which evaluates to 6 against -6 for (0,0,1), yet the proposal after that depth is (0,0,1) (ProposalsDiffer). In general the lists differ exactly when, at some depth 2..19, the root's choice is not `moves[0]` (ProposalsAgreeIff). | After each depth, propose the move the root recorded | not executed | PruningCounterexample.ProposalsDiffer | Pruning.ProposalsCorrected |
