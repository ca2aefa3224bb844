/** The game object of puzzle/puzzle.py without its window: a 3x3 board that the
    player changes one click at a time, the two checks on it, and the three solve
    buttons, which run the searches of puzzle/algorithms.py. */
module PuzzleGame {
  import opened Tiles
  import opened Neighborhood
  import opened Paths
  import opened Solvability
  import opened Parity
  import opened Moves
  import opened SearchInvariants
  import opened Algorithms

  class SlidingPuzzle {
    const size: nat
    const goalState: Board
    var tiles: Board

    /** A 3x3 board holding the goal's cells in some order, so a single blank. */
    ghost predicate Valid()
      reads this
    {
      size == 3 && goalState == Goal(size) && multiset(tiles) == multiset(goalState) && WellFormed(tiles, size)
    }

    /** `__init__`, with the outcome of `shuffle_tiles` as a parameter: the goal's
        cells, shuffled until the inversion test accepts them. */
    constructor (shuffled: Board)
      requires multiset(shuffled) == multiset(Goal(3)) && Solvable(shuffled)
      ensures Valid() && tiles == shuffled
    {
      size := 3;
      goalState := Goal(3);
      tiles := shuffled;
      PermutationOfGoal(shuffled, 3);
    }

    /** `move_tile(row, col)`: exchanges the blank and the clicked cell in place when
        their rows and columns differ by 1 in total. Any ints are accepted, as in
        Python; `indexError` is the IndexError a flat index off the list raises. A
        click on the board is a move, and keeps the verdict of the inversion test. */
    method MoveTile(row: int, col: int) returns (indexError: bool)
      requires Valid()
      modifies this
      ensures Valid()
      ensures Click(old(tiles), size, row, col) == if indexError then None else Some(tiles)
      ensures indexError ==> tiles == old(tiles)
      ensures 0 <= row < size && 0 <= col < size ==>
        !indexError && tiles == Move(old(tiles), size, row, col) && Solvable(tiles) == Solvable(old(tiles))
    {
      ghost var s := tiles;
      PermutationOfGoal(s, size);
      ClickKeepsCells(s, size, row, col);
      if 0 <= row < size && 0 <= col < size {
        ClickOnBoard(s, size, row, col);
        MoveKeepsVerdict(s, size, row, col);
      }
      indexError := false;
      var emptyIndex := BlankIndex(tiles);
      var emptyRow, emptyCol := emptyIndex / size, emptyIndex % size;
      if Abs(emptyRow - row) + Abs(emptyCol - col) == 1 {
        var index := ListIndex(row * size + col, |tiles|);
        if index.None? {
          assert Click(s, size, row, col) == None;
          indexError := true;
          return;
        }
        tiles := tiles[emptyIndex := tiles[index.value]][index.value := tiles[emptyIndex]];
        assert Click(s, size, row, col) == Some(tiles);
      } else {
        assert Click(s, size, row, col) == Some(tiles);
      }
    }

    /** `is_solvable`: the inversion test on the current board. A board it rejects
        can never be brought to the goal. */
    method IsSolvable() returns (solvable: bool)
      requires Valid()
      ensures solvable == Solvable(tiles)
      ensures !solvable ==> !Reachable(tiles, goalState, size)
    {
      solvable := Solvability.IsSolvable(tiles);
      if !solvable {
        PermutationOfGoal(tiles, size);
        UnsolvableCannotReachGoal(tiles, size);
      }
    }

    /** `is_solved`: the board equals the goal position for position. */
    method IsSolved() returns (solved: bool)
      ensures solved <==> |tiles| == |goalState| && forall k :: 0 <= k < |tiles| ==> tiles[k] == goalState[k]
    {
      solved := tiles == goalState;
    }

    /** `solve_bfs`: on a solved board nothing is searched; otherwise the path
        `bfs_search` finds is handed on when it is non-empty. What is handed on is a
        shortest path to the goal, and nothing is handed on only when there is none. */
    method SolveBfs() returns (solution: Option<seq<Board>>)
      requires Valid()
      ensures tiles == goalState ==> solution == None
      ensures solution.Some? ==>
        solution.value != [] && IsPath(tiles, solution.value, size) && End(tiles, solution.value) == goalState
      ensures solution.Some? ==> Shortest(tiles, size, goalState, |solution.value|)
      ensures tiles != goalState ==> (solution.None? <==> !Reachable(tiles, goalState, size))
      ensures !Solvable(tiles) ==> solution == None
    {
      var initialState := tiles;
      var solved := IsSolved();
      if solved {
        return None;
      }
      PermutationOfGoal(initialState, size);
      if !Solvable(initialState) {
        UnsolvableCannotReachGoal(initialState, size);
      }
      var found;
      ghost var enqueued;
      found, enqueued := BfsSearch(initialState, goalState, size);
      if found.Some? && found.value != [] {
        solution := found;
      } else {
        solution := None;
      }
    }

    /** `solve_dfs`: the same with `dfs_search`; the path handed on leads to the goal
        but need not be the shortest. */
    method SolveDfs() returns (solution: Option<seq<Board>>)
      requires Valid()
      ensures tiles == goalState ==> solution == None
      ensures solution.Some? ==>
        solution.value != [] && IsPath(tiles, solution.value, size) && End(tiles, solution.value) == goalState
      ensures tiles != goalState ==> (solution.None? <==> !Reachable(tiles, goalState, size))
      ensures !Solvable(tiles) ==> solution == None
    {
      var initialState := tiles;
      var solved := IsSolved();
      if solved {
        return None;
      }
      PermutationOfGoal(initialState, size);
      if !Solvable(initialState) {
        UnsolvableCannotReachGoal(initialState, size);
      }
      var found;
      ghost var enqueued;
      found, enqueued := DfsSearch(initialState, goalState, size);
      if found.Some? && found.value != [] {
        solution := found;
      } else {
        solution := None;
      }
    }

    /** `solve_astar`: the same with `a_star_search`, whose answer carries the goal
        twice at its end; apart from that last state it is a path to the goal. */
    method SolveAstar() returns (solution: Option<seq<Board>>)
      requires Valid()
      ensures tiles == goalState ==> solution == None
      ensures solution.Some? ==> AStarAnswer(tiles, goalState, size, solution.value) && |solution.value| >= 2
      ensures tiles != goalState ==> (solution.None? <==> !Reachable(tiles, goalState, size))
      ensures !Solvable(tiles) ==> solution == None
    {
      var initialState := tiles;
      var solved := IsSolved();
      if solved {
        return None;
      }
      PermutationOfGoal(initialState, size);
      if !Solvable(initialState) {
        UnsolvableCannotReachGoal(initialState, size);
      }
      var found := AStarSearch(initialState, goalState, size);
      if found.Some? && found.value != [] {
        solution := found;
      } else {
        solution := None;
      }
    }
  }
}
