/** The stand-alone game of src/main.py without its window. Its board, moves and
    checks are those of puzzle/puzzle.py; its three solve buttons run their searches
    inline: breadth-first and depth-first exactly as puzzle/algorithms.py does, and
    under the name A* a greedy best-first search ordered by the heuristic alone,
    marking states explored when it pushes them. */
module MainGame {
  import opened Tiles
  import opened Neighborhood
  import opened Paths
  import opened Frontier
  import opened Heuristic
  import opened Solvability
  import opened Parity
  import opened Moves
  import opened SearchInvariants
  import opened Algorithms

  class SlidingPuzzle {
    const size: nat
    const goalState: Board
    var tiles: Board

    /** A 3x3 board holding the goal's cells in some order, so a single blank. */
    ghost predicate Valid()
      reads this
    {
      size == 3 && goalState == Goal(size) && multiset(tiles) == multiset(goalState) && WellFormed(tiles, size)
    }

    /** `__init__`, with the outcome of `shuffle_tiles` as a parameter. */
    constructor (shuffled: Board)
      requires multiset(shuffled) == multiset(Goal(3)) && Solvable(shuffled)
      ensures Valid() && tiles == shuffled
    {
      size := 3;
      goalState := Goal(3);
      tiles := shuffled;
      PermutationOfGoal(shuffled, 3);
    }

    /** `move_tile(row, col)`, as in puzzle/puzzle.py. */
    method MoveTile(row: int, col: int) returns (indexError: bool)
      requires Valid()
      modifies this
      ensures Valid()
      ensures Click(old(tiles), size, row, col) == if indexError then None else Some(tiles)
      ensures indexError ==> tiles == old(tiles)
      ensures 0 <= row < size && 0 <= col < size ==>
        !indexError && tiles == Move(old(tiles), size, row, col) && Solvable(tiles) == Solvable(old(tiles))
    {
      ghost var s := tiles;
      PermutationOfGoal(s, size);
      ClickKeepsCells(s, size, row, col);
      if 0 <= row < size && 0 <= col < size {
        ClickOnBoard(s, size, row, col);
        MoveKeepsVerdict(s, size, row, col);
      }
      indexError := false;
      var emptyIndex := BlankIndex(tiles);
      var emptyRow, emptyCol := emptyIndex / size, emptyIndex % size;
      if Abs(emptyRow - row) + Abs(emptyCol - col) == 1 {
        var index := ListIndex(row * size + col, |tiles|);
        if index.None? {
          assert Click(s, size, row, col) == None;
          indexError := true;
          return;
        }
        tiles := tiles[emptyIndex := tiles[index.value]][index.value := tiles[emptyIndex]];
        assert Click(s, size, row, col) == Some(tiles);
      } else {
        assert Click(s, size, row, col) == Some(tiles);
      }
    }

    /** `is_solvable`, as in puzzle/puzzle.py. */
    method IsSolvable() returns (solvable: bool)
      requires Valid()
      ensures solvable == Solvable(tiles)
      ensures !solvable ==> !Reachable(tiles, goalState, size)
    {
      solvable := Solvability.IsSolvable(tiles);
      if !solvable {
        PermutationOfGoal(tiles, size);
        UnsolvableCannotReachGoal(tiles, size);
      }
    }

    /** `is_solved`, as in puzzle/puzzle.py. */
    method IsSolved() returns (solved: bool)
      ensures solved <==> |tiles| == |goalState| && forall k :: 0 <= k < |tiles| ==> tiles[k] == goalState[k]
    {
      solved := tiles == goalState;
    }

    /** `find_neighbors(state)`: the same boards, in the same order, as
        `find_neighbors_static(state, self.size)`. */
    method FindNeighbors(state: Board) returns (neighbors: seq<Board>)
      requires Shape(state, size)
      ensures neighbors == Neighbors(state, size)
    {
      neighbors := FindNeighborsStatic(state, size);
    }

    /** `solve_bfs`: nothing when the board is solved; otherwise the breadth-first
        loop, which hands on a shortest path to the goal, or nothing when no path
        reaches it. */
    method SolveBfs() returns (solution: Option<seq<Board>>)
      requires Valid()
      ensures tiles == goalState ==> solution == None
      ensures solution.Some? ==>
        solution.value != [] && IsPath(tiles, solution.value, size) && End(tiles, solution.value) == goalState
      ensures solution.Some? ==> Shortest(tiles, size, goalState, |solution.value|)
      ensures tiles != goalState ==> (solution.None? <==> !Reachable(tiles, goalState, size))
      ensures !Solvable(tiles) ==> solution == None
    {
      var initialState := tiles;
      var solved := IsSolved();
      if solved {
        return None;
      }
      PermutationOfGoal(initialState, size);
      if !Solvable(initialState) {
        UnsolvableCannotReachGoal(initialState, size);
      }
      ghost var enqueued;
      solution, enqueued := BfsSearch(initialState, goalState, size);
    }

    /** `solve_dfs`: the same with the depth-first loop. */
    method SolveDfs() returns (solution: Option<seq<Board>>)
      requires Valid()
      ensures tiles == goalState ==> solution == None
      ensures solution.Some? ==>
        solution.value != [] && IsPath(tiles, solution.value, size) && End(tiles, solution.value) == goalState
      ensures tiles != goalState ==> (solution.None? <==> !Reachable(tiles, goalState, size))
      ensures !Solvable(tiles) ==> solution == None
    {
      var initialState := tiles;
      var solved := IsSolved();
      if solved {
        return None;
      }
      PermutationOfGoal(initialState, size);
      if !Solvable(initialState) {
        UnsolvableCannotReachGoal(initialState, size);
      }
      ghost var enqueued;
      solution, enqueued := DfsSearch(initialState, goalState, size);
    }

    /** `solve_astar`: the same with the greedy loop. Its path carries no extra goal
        at the end. */
    method SolveAstar() returns (solution: Option<seq<Board>>)
      requires Valid()
      ensures tiles == goalState ==> solution == None
      ensures solution.Some? ==>
        solution.value != [] && IsPath(tiles, solution.value, size) && End(tiles, solution.value) == goalState
      ensures tiles != goalState ==> (solution.None? <==> !Reachable(tiles, goalState, size))
      ensures !Solvable(tiles) ==> solution == None
    {
      var initialState := tiles;
      var solved := IsSolved();
      if solved {
        return None;
      }
      PermutationOfGoal(initialState, size);
      if !Solvable(initialState) {
        UnsolvableCannotReachGoal(initialState, size);
      }
      ghost var enqueued;
      solution, enqueued := GreedySearch(initialState, goalState, size);
    }
  }


  /** Every entry's priority is the heuristic of its state, and nothing else. */
  ghost predicate Scored(f: seq<Entry<nat>>, size: nat)
  {
    size > 0 && forall k :: 0 <= k < |f| ==> f[k].key == Manhattan(f[k].state, size)
  }

  ghost predicate GreedyInvariant(initial: Board, goal: Board, size: nat, f: seq<Entry<nat>>,
                                  explored: set<Board>, expanded: set<Board>, enqueued: seq<Board>)
  {
    Marking(initial, goal, size, f, explored, expanded, enqueued) && Scored(f, size)
  }

  /** The loop of `solve_astar` in src/main.py: pops an entry of least heuristic (ties
      are left open), marks neighbors explored as it pushes them, and returns the
      popped path as it is. The path leads from the start to the goal move by move,
      is missing only when no path reaches the goal, and no state is pushed twice. */
  method GreedySearch(initialState: Board, goalState: Board, size: nat)
    returns (result: Option<seq<Board>>, ghost enqueued: seq<Board>)
    requires Shape(initialState, size)
    ensures initialState == goalState ==> result == Some([])
    ensures result.Some? ==> IsPath(initialState, result.value, size) && End(initialState, result.value) == goalState
    ensures result.None? <==> !Reachable(initialState, goalState, size)
    ensures |enqueued| >= 1 && enqueued[0] == initialState && Distinct(enqueued)
    ensures forall k :: 0 <= k < |enqueued| ==> Reachable(initialState, enqueued[k], size)
    ensures result.Some? ==> goalState in enqueued
    ensures result.None? ==> forall t :: Reachable(initialState, t, size) ==> t in enqueued
  {
    var h := ManhattanDistance(initialState, size);
    var frontier: seq<Entry<nat>> := [Entry(h, initialState, [])];
    var explored: set<Board> := {};
    ghost var expanded: set<Board> := {};
    enqueued := [initialState];
    var byHeuristic := (priority: nat) => priority as int;
    MarkingInit(initialState, goalState, size, h);
    while frontier != []
      invariant GreedyInvariant(initialState, goalState, size, frontier, explored, expanded, enqueued)
      decreases Universe(initialState) - explored, |frontier|
    {
      LeastExists(frontier, byHeuristic);
      var i :| 0 <= i < |frontier| && Least(frontier, i, byHeuristic);
      ghost var f0, e0 := frontier, explored;
      var state, path := frontier[i].state, frontier[i].path;
      assert SoundEntry(initialState, size, f0[i]);
      frontier := frontier[..i] + frontier[i + 1..];
      if state == goalState {
        result := Some(path);
        MarkingFound(initialState, goalState, size, f0, i, e0, expanded, enqueued);
        return;
      }
      explored := explored + {state};
      var neighbors := FindNeighborsStatic(state, size);
      ghost var pushed;
      frontier, explored, pushed := PushScored(frontier, explored, path, neighbors, size);
      GreedyAdvance(initialState, goalState, size, f0, i, e0, expanded, enqueued, pushed);
      expanded := expanded + {state};
      enqueued := enqueued + NewStates(neighbors, e0 + {state});
    }
    result := None;
    MarkingExhausted(initialState, goalState, size, frontier, explored, expanded, enqueued);
  }

  /** One turn of the greedy loop keeps its invariant and makes progress. */
  lemma GreedyAdvance(initial: Board, goal: Board, size: nat, f: seq<Entry<nat>>, i: nat, explored: set<Board>,
                      expanded: set<Board>, enqueued: seq<Board>, pushed: seq<Entry<nat>>)
    requires GreedyInvariant(initial, goal, size, f, explored, expanded, enqueued)
    requires Expansion(size, f, i, explored, pushed) && f[i].state != goal
    requires forall m :: 0 <= m < |pushed| ==> pushed[m].key == Manhattan(pushed[m].state, size)
    ensures var f' := f[..i] + f[i + 1..] + pushed; var e' := Marked(size, f, i, explored);
      && GreedyInvariant(initial, goal, size, f', e', expanded + {f[i].state}, enqueued + Added(size, f, i, explored))
      && (Universe(initial) - e' < Universe(initial) - explored || (e' == explored && |f'| < |f|))
  {
    assert Remove(f, i) == f[..i] + f[i + 1..];
    MarkingStep(initial, goal, size, f, i, explored, expanded, enqueued, pushed);
    MarkingProgress(initial, goal, size, f, i, explored, expanded, enqueued, pushed);
    ScoredAfter(f, i, pushed, size);
  }

  lemma ScoredAfter(f: seq<Entry<nat>>, i: nat, pushed: seq<Entry<nat>>, size: nat)
    requires Scored(f, size) && i < |f|
    requires forall m :: 0 <= m < |pushed| ==> pushed[m].key == Manhattan(pushed[m].state, size)
    ensures Scored(Remove(f, i) + pushed, size)
  {
    var f' := Remove(f, i) + pushed;
    forall k | 0 <= k < |f'| ensures f'[k].key == Manhattan(f'[k].state, size) {
      if k < |f| - 1 {
        assert f'[k] == Remove(f, i)[k];
      } else {
        assert f'[k] == pushed[k - (|f| - 1)];
      }
    }
  }

  /** The inner loop of the greedy `solve_astar`: push each neighbor not yet
      explored, with its heuristic as priority and the path extended by it, and mark
      it explored. */
  method PushScored(frontier: seq<Entry<nat>>, explored: set<Board>, path: seq<Board>, neighbors: seq<Board>,
                    size: nat)
    returns (frontier': seq<Entry<nat>>, explored': set<Board>, ghost pushed: seq<Entry<nat>>)
    requires size > 0
    ensures frontier' == frontier + pushed
    ensures explored' == explored + Elems(neighbors)
    ensures PushedFrom(pushed, path, NewStates(neighbors, explored))
    ensures forall m :: 0 <= m < |pushed| ==> pushed[m].key == Manhattan(pushed[m].state, size)
  {
    frontier', explored', pushed := frontier, explored, [];
    var k := 0;
    while k < |neighbors|
      invariant 0 <= k <= |neighbors|
      invariant frontier' == frontier + pushed
      invariant explored' == explored + Elems(neighbors[..k])
      invariant PushedFrom(pushed, path, NewStates(neighbors[..k], explored))
      invariant forall m :: 0 <= m < |pushed| ==> pushed[m].key == Manhattan(pushed[m].state, size)
    {
      var neighbor := neighbors[k];
      assert neighbors[..k + 1][..k] == neighbors[..k];
      if neighbor !in explored' {
        var distance := ManhattanDistance(neighbor, size);
        frontier' := frontier' + [Entry(distance, neighbor, path + [neighbor])];
        pushed := pushed + [Entry(distance, neighbor, path + [neighbor])];
        explored' := explored' + {neighbor};
      }
      k := k + 1;
    }
    assert neighbors[..k] == neighbors;
  }
}
