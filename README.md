# Sliding-tile puzzle engine, modelled in Dafny

The repository is a 3x3 sliding-tile puzzle (the 8-puzzle) with a Tk window. A board
is a flat, row-major list of `size * size` cells. Cells hold the numbers
`1 .. size*size - 1` and one blank, which Python writes as `None`. The goal is
`1, 2, ..., 8, None`. The game object's `move_tile(row, col)` slides a tile next to
the blank into it. Nothing in the source calls it: the grid buttons are created
without a command. Three buttons solve the board by searching the graph whose edges are single moves:

- breadth-first, with a FIFO queue;
- depth-first, with a LIFO stack;
- "A*", with a priority queue ordered by the Manhattan-distance heuristic.

The engine exists twice:

- `puzzle/` is the packaged game. `puzzle/utils.py` generates neighbors.
  `puzzle/algorithms.py` holds the three searches. `puzzle/puzzle.py` holds the game
  object.
- `src/main.py` is a stand-alone copy with its searches written inline.

The model keeps what the engine computes and drops the window. Each source file maps
to Dafny modules as follows:

- `Tiles` (tiles.dfy): boards, cells, the goal, the blank's index, exchanging two
  cells, grid adjacency.
- `Neighborhood` (neighborhood.dfy): `find_neighbors_static`. It is an imperative loop,
  proved equal to the specification function `Neighbors`. Lemmas say what the
  neighbors are, how many there are, and in which order they come.
- `Paths` (paths.dfy): paths of moves, reachability, and sets that no move leaves.
- `Frontier` (frontier.dfy): frontier entries, the pushed neighbors, and the finite
  universe of boards that makes every search terminate.
- `Heuristic` (heuristic.dfy): `manhattan_distance`. It is a loop proved equal to
  `Manhattan`, and the heuristic is 0 exactly on boards whose tiles all sit home.
- `Solvability` (solvability.dfy): the inversion test `is_solvable`, as two nested
  loops proved equal to `Solvable`.
- `Parity` (parity.dfy): no move changes the verdict of that test on an odd-width
  board. So a board the test rejects never reaches the goal.
- `SearchInvariants` (invariants.dfy): the loop invariants of the searches, and the
  lemmas that carry them across one loop turn.
- `Algorithms` (algorithms.dfy): `bfs_search`, `dfs_search` and `a_star_search`, as
  `while` loops over sequences.
- `Moves` (moves.dfy): the board that a click leaves.
- `PuzzleGame` (puzzle.dfy): the class `SlidingPuzzle` of `puzzle/puzzle.py`.
- `MainGame` (main.dfy): the class `SlidingPuzzle` of `src/main.py`, plus its inline
  greedy search.

What the searches promise, proved for every board shape:

- A returned path leads from the start board (which it does not list) to the goal,
  one legal move per step.
- The breadth-first path is a shortest one.
- Nothing is returned only when no sequence of moves reaches the goal.
- Every loop terminates.
- The searches that mark states when they push them never push a state twice. The
  trace of their pushes holds only states reachable from the start. When such a
  search finds nothing, the trace holds every reachable state, so it pushed each of
  them exactly once.
- `move_tile` accepts any ints. Inside the board a click is one move. Outside the
  board, Python's list indexing decides on the flat index `row * size + col`. A flat
  index on the list swaps that cell, even when `row == size` or `col == size` (on a
  3x3 board with the blank at index 2, `move_tile(0, 3)` swaps indices 2 and 3,
  which are not grid-adjacent; `Moves.ClickPastRightEdge`). A negative flat index
  counts from the end, and any other index off the list raises IndexError
  (`Moves.Click`).

Where the code and its accompanying description differ, the model follows the code:

- `a_star_search` returns the popped path with the goal appended. Because the popped
  path already ends at the goal, the goal appears twice at the end (`AStarAnswer`).
- `a_star_search` marks a state explored when it pops it. So the same state can sit
  in the queue more than once.
- The "A*" of `src/main.py` orders its queue by the heuristic alone, with no path
  cost. It is a greedy best-first search (`MainGame.GreedySearch`), and it marks
  states when it pushes them.
- `is_solvable` counts inversions and accepts an even count. It does not apply the
  blank-row rule that even widths need. The model proves the test without that rule
  sound for odd widths, which include the game's width 3:
  `Parity.UnsolvableCannotReachGoal`.

## Model

The specification functions carry no contract of their own. These rows state what
is proved about them:

- `Neighborhood.Neighbors`: the `Neighborhood.FindNeighborsStatic` row and the neighbor lemmas.
- `Heuristic.Manhattan`: the `Heuristic.ManhattanDistance` and `Heuristic.ManhattanZero` rows.
- `Solvability.Solvable`: the `Solvability.IsSolvable` row and the `Parity` rows.
- `Moves.Move` and `Moves.Click`: the `Moves` rows and the two `MoveTile` rows.


| member | source | states |
|---|---|---|
| Tiles.BlankIndex | puzzle/utils.py:2 | `state.index(None)`: the result holds the blank and no earlier cell does |
| Tiles.Swap | puzzle/utils.py:10-11 | the copy has cells i and j exchanged and every other cell unchanged |
| Tiles.SwapPermutes | puzzle/utils.py:10-11 | an exchange keeps the multiset of cells |
| Tiles.SwapBack | puzzle/utils.py:10-11 | exchanging the same two cells again restores the board |
| Tiles.SwapKeepsOneBlank | puzzle/puzzle.py:83-84 | exchanging the blank with a tile keeps exactly one blank, puts it at j, and changes the board |
| Tiles.SwapKeepsDistinct | puzzle/puzzle.py:83-84 | an exchange keeps the cells pairwise distinct |
| Tiles.BlankIndexUnique | puzzle/puzzle.py:80 | with one blank, any position holding the blank is the blank's index |
| Tiles.Goal | puzzle/puzzle.py:11 | the goal `list(range(1, n*n)) + [None]` has n*n cells |
| Tiles.GoalDistinct | puzzle/puzzle.py:11 | the goal's cells are pairwise distinct |
| Tiles.PermutationOfGoal | puzzle/puzzle.py:52-56 | any reordering of the goal's cells, such as a shuffle's outcome, is a well-formed board with one blank and distinct cells |
| Tiles.IndexOfCell | puzzle/puzzle.py:80-84 | `row * size + col` lies on the board, and div/mod by size recovers (row, col) |
| Tiles.CellOfIndex | puzzle/puzzle.py:80-81 | every index splits into a row and a column on the board and is rebuilt from them |
| Neighborhood.Target | puzzle/utils.py:5-10 | the index `new_row * size + new_col` of an on-board offset lies on the board |
| Neighborhood.TargetCell | puzzle/utils.py:4-9 | the target's row and column are the blank's, moved by the offset |
| Neighborhood.FindNeighborsStatic | puzzle/utils.py:1-14 | the loop over the four offsets returns exactly `Neighbors(state, size)` |
| Neighborhood.AllCandidates | puzzle/utils.py:5-12 | the four offsets' contributions, in order, make up the neighbor list |
| Neighborhood.NeighborIndex | puzzle/utils.py:5-12 | every neighbor is the board with the blank exchanged with a grid-adjacent cell |
| Neighborhood.NeighborOffset | puzzle/utils.py:5-12 | every neighbor comes from one of the four offsets whose cell is on the board |
| Neighborhood.AdjacentSwapIsNeighbor | puzzle/utils.py:5-12 | conversely every exchange of the blank with a grid-adjacent cell is a neighbor |
| Neighborhood.TargetAdjacent | puzzle/utils.py:6-9 | every offset's target is grid-adjacent to the blank |
| Neighborhood.TargetOffset | puzzle/utils.py:5-10 | the four targets are the cells above, below, left of and right of the blank |
| Neighborhood.AdjacentCases | puzzle/utils.py:5 | a cell grid-adjacent to the blank is one of those four |
| Neighborhood.CandidateInNeighbors | puzzle/utils.py:12 | what an offset contributes is in the neighbor list |
| Neighborhood.RankOfCandidate | puzzle/utils.py:5-12 | the offset that produced a neighbor can be read off where the blank went |
| Neighborhood.CandidatesInOrder | puzzle/utils.py:5-12 | the first k offsets' boards come out in offset order |
| Neighborhood.NeighborsInOffsetOrder | puzzle/utils.py:5-12 | neighbors come out up, down, left, right; each offset whose cell is on the board contributes one |
| Neighborhood.NeighborsDistinct | puzzle/utils.py:1-14 | the neighbors are pairwise different, and none is the input |
| Neighborhood.NeighborFacts | puzzle/utils.py:10-12 | a neighbor keeps the shape, the multiset of cells and the single blank, and differs from the input |
| Neighborhood.NeighborCount | puzzle/utils.py:7-8 | 2 neighbors in a corner, 3 on an edge, 4 in the interior |
| Neighborhood.NeighborsSymmetric | puzzle/utils.py:1-14 | the input is among the neighbors of each of its neighbors, so every move can be undone |
| Paths.PathExtend | puzzle/algorithms.py:17-19 | extending a path by a neighbor of its end gives a path ending at that neighbor |
| Paths.PathPrefix | puzzle/algorithms.py:19 | every prefix of a path is a path |
| Paths.LastStep | puzzle/algorithms.py:19 | the last move of a path starts where the path one move shorter ends |
| Paths.PathStaysInside | puzzle/algorithms.py:9-22 | a path starting in a set that no move leaves ends in that set |
| Paths.SealedCutsOffGoal | puzzle/algorithms.py:22 | a start inside such a set without the goal cannot reach the goal |
| Frontier.Remove | puzzle/algorithms.py:79 | taking entry i out of the frontier keeps the other entries in order |
| Frontier.NewStatesFacts | puzzle/algorithms.py:16-20 | pushed neighbors are unexplored, none is pushed twice, and every unexplored neighbor is pushed |
| Frontier.UnexploredFacts | puzzle/algorithms.py:86-90 | the A* pushes are exactly the neighbors not explored |
| Frontier.BoardsComplete | puzzle/algorithms.py:9 | every board over the given cells is in the finite set of all such boards |
| Frontier.OverInUniverse | puzzle/algorithms.py:15 | every explored set lies inside the finite universe of the start's reorderings |
| Frontier.Shrinks | puzzle/algorithms.py:15 | marking a new state leaves less of the universe unexplored |
| Frontier.NeighborsOver | puzzle/algorithms.py:17 | neighbors stay boards of the start's cells |
| Frontier.ExtendSound | puzzle/algorithms.py:19 | extending a sound entry's path by a neighbor keeps it sound |
| Frontier.StaleConcat | puzzle/algorithms.py:86-90 | the stale entries of two frontiers add up |
| Frontier.StaleNone | puzzle/algorithms.py:86-90 | pushes of unexplored states add no stale entry |
| Frontier.StaleRemove | puzzle/algorithms.py:79-84 | popping an explored state leaves one stale entry fewer |
| Frontier.LeastExists | puzzle/algorithms.py:79 | a non-empty priority queue has an entry of least priority for `get` to return |
| Heuristic.ManhattanDistance | puzzle/algorithms.py:45-53 | the loop returns `Manhattan(state, size)`, which is never negative |
| Heuristic.CellDistanceZero | puzzle/algorithms.py:48-52 | a tile contributes 0 exactly when it sits at index `tile - 1` |
| Heuristic.DistanceUpToZero | puzzle/algorithms.py:47-52 | the first n cells contribute 0 exactly when each tile among them sits home |
| Heuristic.ManhattanZero | puzzle/algorithms.py:45-53 | the heuristic is 0 exactly when every tile t sits at index t - 1 |
| Heuristic.GoalScoresZero | puzzle/algorithms.py:45-53 | the goal scores 0 |
| Solvability.IsSolvable | puzzle/puzzle.py:87-94 | the nested loops return true exactly when the inversion count of the tiles is even |
| Solvability.TileValuesConcat | puzzle/puzzle.py:88 | reading the tiles of two parts gives the two readings joined |
| Solvability.BlankPlacementIrrelevant | puzzle/puzzle.py:88 | where the blank sits changes neither the tiles read nor the verdict |
| Solvability.SidewaysMoveKeepsVerdict | puzzle/puzzle.py:87-94 | sliding the blank within a row keeps the tiles read and the verdict |
| Solvability.IncreasingHasNoInversions | puzzle/puzzle.py:89-93 | an increasing list has no inversions |
| Solvability.NothingBelow | puzzle/puzzle.py:91-92 | no entry of a list of larger values is smaller than x |
| Solvability.GoalIsSolvable | puzzle/puzzle.py:87-94 | the goal reads 1 .. n*n - 1, which has no inversions, so the test accepts it |
| Solvability.TileValuesOfNumbered | puzzle/puzzle.py:88 | the tiles 1 .. n read as the numbers 1 .. n |
| Solvability.CountBelowConcat | puzzle/puzzle.py:90-92 | counting the smaller entries of two joined lists adds up |
| Solvability.InversionsSwapPair | puzzle/puzzle.py:89-93 | exchanging two neighboring values changes the inversion count by exactly one when they differ |
| Solvability.InversionsShift | puzzle/puzzle.py:89-93 | carrying a value over a run of m other values changes the inversion parity by the parity of m |
| Solvability.TileValuesNoBlank | puzzle/puzzle.py:88 | a run with no blank reads one value per cell |
| Solvability.TileValuesHold | puzzle/puzzle.py:88 | the values read are exactly the numbers of the tiles on the board |
| Parity.ShiftTile | puzzle/puzzle.py:87-94 | carrying a tile over a run of m tiles past the blank changes the inversion parity by the parity of m |
| Parity.ReadTileThenBlank | puzzle/puzzle.py:88 | the values read from a tile, a run, the blank and the rest |
| Parity.ReadBlankThenTile | puzzle/puzzle.py:88 | the values read from the blank, a run, a tile and the rest |
| Parity.ReadThrough | puzzle/puzzle.py:88 | reading over one cell adds its number for a tile and nothing for the blank |
| Parity.VerticalMoveKeepsVerdict | puzzle/puzzle.py:87-94 | on an odd width, sliding the blank up or down passes an even number of tiles and keeps the verdict |
| Parity.SplitAround | puzzle/utils.py:10-11 | a board cut at two positions, before and after exchanging them |
| Parity.SwapSymmetric | puzzle/utils.py:10-11 | exchanging i with j is exchanging j with i |
| Parity.RunAvoids | puzzle/puzzle.py:87-94 | on a board with distinct cells neither end of a run occurs inside it |
| Parity.ShiftKeepsVerdict | puzzle/puzzle.py:87-94 | carrying a tile over an even run past the blank keeps the verdict |
| Parity.EvenShift | puzzle/puzzle.py:94 | adding an even number keeps the parity |
| Parity.NeighborKeepsVerdict | puzzle/puzzle.py:87-94 | on an odd width, a neighbor of a board with distinct cells has distinct cells and the same verdict |
| Parity.AdjacentSwapKeepsVerdict | puzzle/puzzle.py:87-94 | on an odd width, exchanging the blank with any grid-adjacent cell keeps the verdict |
| Parity.PathKeepsVerdict | puzzle/puzzle.py:87-94 | along any path the cells stay distinct and the verdict never changes |
| Parity.UnsolvableCannotReachGoal | puzzle/puzzle.py:52-56 | on an odd width, a board the test rejects cannot reach the goal by any moves |
| Moves.ListIndex | puzzle/puzzle.py:84 | a Python list index that does not raise lands on the list, at k itself or at k counted from the end |
| Moves.ClickOnBoard | puzzle/puzzle.py:79-85 | a click on the board never raises and leaves the board `Move` gives |
| Moves.ClickKeepsCells | puzzle/puzzle.py:79-85 | whatever the row and col, a board a click leaves holds the same cells and one blank |
| Moves.ClickPastRightEdge | puzzle/puzzle.py:79-85 | with the blank in the top right corner, `move_tile(0, size)` passes the distance test and exchanges the blank with a cell that is not grid-adjacent; the verdict stays |
| Moves.MoveIsNeighbor | puzzle/puzzle.py:79-85 | a click changes the board exactly when the cell is grid-adjacent to the blank; then the result is a neighbor with the blank at the clicked cell; the board stays well-formed with the same cells |
| Moves.NeighborIsMove | puzzle/puzzle.py:79-85 | every neighbor is what some click produces |
| Moves.MoveKeepsVerdict | puzzle/puzzle.py:79-85 | on an odd width a click keeps the cells distinct and the verdict of the inversion test |
| SearchInvariants.MarkingInit | puzzle/algorithms.py:5-7 | the one-entry frontier of the start satisfies the marking invariant |
| SearchInvariants.InitialMarked | puzzle/algorithms.py:15 | once the first entry is expanded the start is explored |
| SearchInvariants.QueuedMarked | puzzle/algorithms.py:18-20 | every queued state other than the start is explored |
| SearchInvariants.TraceReachable | puzzle/algorithms.py:16-20 | every pushed state is reachable from the start |
| SearchInvariants.MarkingFound | puzzle/algorithms.py:12-13 | a popped goal entry holds a path from the start to the goal, and the empty one when the start is the goal; the goal was pushed, and every pushed state is reachable |
| SearchInvariants.MarkingExhausted | puzzle/algorithms.py:22 | an empty frontier leaves a set that no move leaves, holding the start and not the goal, so the goal is unreachable; the pushed states are exactly the reachable ones |
| SearchInvariants.MarkingStep | puzzle/algorithms.py:9-20 | popping a non-goal entry and pushing its unmarked neighbors keeps the marking invariant |
| SearchInvariants.StepSound | puzzle/algorithms.py:16-19 | after a step every entry's path still runs from the start to its state |
| SearchInvariants.SoundAfter | puzzle/algorithms.py:16-19 | the kept entries and the pushed entries are sound together |
| SearchInvariants.StepOver | puzzle/algorithms.py:16-20 | every explored state stays a board of the start's cells |
| SearchInvariants.StepClosed | puzzle/algorithms.py:15-20 | the popped state joins the expanded ones with all its neighbors explored |
| SearchInvariants.StepCovered | puzzle/algorithms.py:15-20 | every explored state was expanded or is still in the frontier |
| SearchInvariants.StepEnqueued | puzzle/algorithms.py:18-20 | the states pushed are new, so the trace of pushes has no repeats |
| SearchInvariants.StepTraced | puzzle/algorithms.py:16-20 | after a step every queued and every explored state is in the trace of pushes |
| SearchInvariants.StepReachable | puzzle/algorithms.py:10-15 | the popped state is reachable, so the expanded states stay reachable |
| SearchInvariants.LayeredInit | puzzle/algorithms.py:5-7 | the start's queue is layered at level 0 |
| SearchInvariants.LayeredStep | puzzle/algorithms.py:9-20 | a FIFO pop and the pushes keep the queue layered: paths of one level then the next, each a shortest path |
| SearchInvariants.ReachNext | puzzle/algorithms.py:9-20 | after a step every state within the new level's moves is explored |
| SearchInvariants.StepShortest | puzzle/algorithms.py:16-19 | every entry after a step holds a shortest path to its state |
| SearchInvariants.AllShortestRemove | puzzle/algorithms.py:10 | taking an entry out keeps every entry holding a shortest path |
| SearchInvariants.AllShortestConcat | puzzle/algorithms.py:19 | two queues of shortest-path entries joined are one |
| SearchInvariants.PushedShortest | puzzle/algorithms.py:17-19 | the pushed entries hold shortest paths |
| SearchInvariants.Unreached | puzzle/algorithms.py:17-19 | an unexplored state, when everything within `level` moves is explored, needs more than `level` moves |
| SearchInvariants.LevelRises | puzzle/algorithms.py:9-20 | once the whole queue is one level on, every state within that level is explored |
| SearchInvariants.OneLevelOn | puzzle/algorithms.py:9-20 | the end of a path one level long is explored |
| SearchInvariants.NotQueued | puzzle/algorithms.py:9-20 | the end of a path shorter than every queued path is in no entry |
| SearchInvariants.ExpandedLeadsIn | puzzle/algorithms.py:15-20 | a move out of an expanded state lands in the explored set |
| SearchInvariants.LayeredLengths | puzzle/algorithms.py:10-19 | the path lengths of the queue after a front pop and the pushes |
| SearchInvariants.MarkingProgress | puzzle/algorithms.py:9-20 | a step explores a new state or shortens the frontier |
| SearchInvariants.NoneAdded | puzzle/algorithms.py:17-20 | an expansion that marks nothing new pushes nothing |
| SearchInvariants.PricedInit | puzzle/algorithms.py:74-76 | the A* frontier of the start satisfies its invariant |
| SearchInvariants.PricedFound | puzzle/algorithms.py:81-82 | a popped goal entry holds a path to the goal, the empty one when the start is the goal |
| SearchInvariants.PricedExhausted | puzzle/algorithms.py:92 | an empty A* frontier means the goal is unreachable |
| SearchInvariants.PricedStep | puzzle/algorithms.py:78-90 | popping a non-goal entry, marking it and pushing its unexplored neighbors keeps the A* invariant |
| SearchInvariants.PricedSound | puzzle/algorithms.py:86-90 | the A* entries stay sound |
| SearchInvariants.PricedKeys | puzzle/algorithms.py:87-90 | every A* entry's cost is its path length and its priority is cost plus heuristic |
| SearchInvariants.PricedOver | puzzle/algorithms.py:84 | the A* explored states stay boards of the start's cells |
| SearchInvariants.PricedClosed | puzzle/algorithms.py:84-90 | every explored A* state is expanded with its neighbors explored or queued |
| SearchInvariants.ClosedGrow | puzzle/algorithms.py:84-90 | closedness survives a larger set of covered states |
| SearchInvariants.ClosedAdd | puzzle/algorithms.py:84-90 | adding a non-goal state whose neighbors are covered keeps closedness |
| SearchInvariants.StatesAfter | puzzle/algorithms.py:79-90 | after a step the queued states are the old ones but perhaps the popped one, plus the pushed ones |
| SearchInvariants.PricedProgress | puzzle/algorithms.py:78-90 | an A* step explores a new state or pops a stale entry |
| Algorithms.BfsSearch | puzzle/algorithms.py:4-22 | a returned path leads from the start to the goal move by move and is a shortest one; `[]` when the start is the goal; None exactly when the goal is unreachable; the pushed states are distinct and reachable; the goal was pushed when found; on None every reachable state was pushed |
| Algorithms.BfsAdvance | puzzle/algorithms.py:9-20 | one turn of the BFS loop keeps its invariant and explores a new state or shortens the queue |
| Algorithms.PushUnmarked | puzzle/algorithms.py:16-20 | the inner loop appends one entry per new neighbor with the path extended by it, and marks all the neighbors |
| Algorithms.DfsSearch | puzzle/algorithms.py:24-42 | a returned path leads from the start to the goal move by move; `[]` when the start is the goal; None exactly when the goal is unreachable; the pushed states are distinct and reachable; the goal was pushed when found; on None every reachable state was pushed |
| Algorithms.DfsAdvance | puzzle/algorithms.py:29-40 | one turn of the DFS loop keeps its invariant and makes progress |
| Algorithms.AStarSearch | puzzle/algorithms.py:44-92 | `[goal]` when the start is the goal; otherwise a path to the goal followed by the goal again; None exactly when the goal is unreachable |
| Algorithms.AStarExhausted | puzzle/algorithms.py:92 | an empty A* frontier justifies returning None |
| Algorithms.AStarPopped | puzzle/algorithms.py:79 | the popped entry holds a board whose cost is the length of its path |
| Algorithms.AStarFound | puzzle/algorithms.py:81-82 | the popped path with the goal appended is the answer the search promises |
| Algorithms.AStarAdvance | puzzle/algorithms.py:78-90 | one turn of the A* loop keeps its invariant and makes progress |
| Algorithms.PushPriced | puzzle/algorithms.py:85-90 | the inner loop appends one entry per unexplored neighbor, with cost one more and priority cost plus heuristic |
| PuzzleGame.SlidingPuzzle.constructor | puzzle/puzzle.py:7-20 | a board from a shuffle of the goal, accepted by the test, is a valid game |
| PuzzleGame.SlidingPuzzle.MoveTile | puzzle/puzzle.py:79-85 | the board becomes what `Click` gives for any ints, or stays with `indexError` on an IndexError; the game stays valid; on the board the click is `Move` and keeps the verdict |
| PuzzleGame.SlidingPuzzle.IsSolvable | puzzle/puzzle.py:87-94 | the verdict of the inversion test; a rejected board cannot reach the goal |
| PuzzleGame.SlidingPuzzle.IsSolved | puzzle/puzzle.py:96-97 | true exactly when the board equals the goal cell by cell |
| PuzzleGame.SlidingPuzzle.SolveBfs | puzzle/puzzle.py:99-106 | nothing on a solved board; a handed-on path is a shortest path to the goal; nothing only when the goal is unreachable, always on a rejected board |
| PuzzleGame.SlidingPuzzle.SolveDfs | puzzle/puzzle.py:108-115 | nothing on a solved board; a handed-on path leads to the goal; nothing only when the goal is unreachable |
| PuzzleGame.SlidingPuzzle.SolveAstar | puzzle/puzzle.py:117-125 | nothing on a solved board; a handed-on answer is a path to the goal plus the goal again; nothing only when the goal is unreachable |
| MainGame.SlidingPuzzle.constructor | src/main.py:6-16 | a board from a shuffle of the goal, accepted by the test, is a valid game |
| MainGame.SlidingPuzzle.MoveTile | src/main.py:57-64 | the board becomes what `Click` gives for any ints, or stays with `indexError` on an IndexError; the game stays valid; on the board the click is `Move` and keeps the verdict |
| MainGame.SlidingPuzzle.IsSolvable | src/main.py:66-73 | the verdict of the inversion test; a rejected board cannot reach the goal |
| MainGame.SlidingPuzzle.IsSolved | src/main.py:75-76 | true exactly when the board equals the goal cell by cell |
| MainGame.SlidingPuzzle.FindNeighbors | src/main.py:78-92 | the neighbors of the board, as `find_neighbors_static` gives them |
| MainGame.SlidingPuzzle.SolveBfs | src/main.py:95-116 | nothing on a solved board; a played path is a shortest path to the goal; nothing only when the goal is unreachable |
| MainGame.SlidingPuzzle.SolveDfs | src/main.py:119-140 | nothing on a solved board; a played path leads to the goal; nothing only when the goal is unreachable |
| MainGame.SlidingPuzzle.SolveAstar | src/main.py:143-174 | nothing on a solved board; a played path leads to the goal; nothing only when the goal is unreachable |
| MainGame.GreedySearch | src/main.py:158-174 | the path popped at the goal leads from the start to it move by move; None exactly when the goal is unreachable; the pushed states are distinct and reachable; the goal was pushed when found; on None every reachable state was pushed |
| MainGame.GreedyAdvance | src/main.py:162-173 | one turn of the greedy loop keeps its invariant and makes progress |
| MainGame.ScoredAfter | src/main.py:173 | every queued entry's priority is the heuristic of its state |
| MainGame.PushScored | src/main.py:170-173 | the inner loop appends one entry per new neighbor with its heuristic as priority, and marks all the neighbors |

## Left out

- The Tk window is not modelled: `create_grid`, `update_grid`, the buttons, `refresh_puzzle` and `toggle_pause`. They draw and take no part in the computation.
- `play_solution` and its timed playback are not modelled. A solve method returns the path it would play.
- `shuffle_tiles` draws random permutations, which is not modelled. Its outcome, a reordering of the goal accepted by the inversion test, is a constructor parameter.
- `print` calls and the `__main__` block are not modelled.
- `PriorityQueue` breaks ties by comparing the next tuple fields, and ultimately the lists of cells. Python cannot order `None` against an int, so such a comparison can raise `TypeError`. The model lets `get` return any entry of least priority, leaving the tie order open, and has no error path for the comparison.
- Algorithms.AStarSearch: states only that the answer is a path to the goal. It does not prove the answer is as short as possible, or that the heuristic is admissible.
- Solvability.IsSolvable: on even widths the game's test is not the right criterion, and the source does not apply the blank-row rule. The model keeps the source's test and proves it sound only for odd widths.
- The converse of the parity result (every board the test accepts reaches the goal) is not proved.
- `update_grid` after a move is not modelled. The IndexError of `move_tile` is a returned flag, not an exception.
- Moves.MoveKeepsVerdict: covers clicks on the board only. A click off the board that wraps through a negative index exchanges cells far apart, and nothing is proved about its verdict.
- The A* queue can hold several entries for one state. That is modelled, but the model does not bound how many.
- The copy of `find_neighbors_static` nested in `a_star_search` (puzzle/algorithms.py:55-72) matches puzzle/utils.py, so it shares one definition, `Neighborhood.FindNeighborsStatic`. The same holds for `find_neighbors` in src/main.py:78-92.
- The breadth-first and depth-first loops of src/main.py are the loops of puzzle/algorithms.py. They reuse `Algorithms.BfsSearch` and `Algorithms.DfsSearch`. The `manhattan_distance` of src/main.py:148-156 is the same function and reuses `Heuristic.ManhattanDistance`.
- `8-Puzzle game using BFS.py` is not part of this model.
- Python's list-versus-tuple representation of states in the explored set is not modelled. Boards are sequence values throughout.
