/** The Manhattan-distance heuristic nested in `a_star_search` (puzzle/algorithms.py)
    and in `solve_astar` (src/main.py). Python's `divmod` floors; with the positive
    width as divisor Dafny's `/` and `%` agree with it, also for `tile - 1 < 0`. */
module Heuristic {
  import opened Tiles

  /** Rows plus columns between a tile at index i and the slot `tile - 1` it belongs
      in; the blank costs nothing. */
  function CellDistance(c: Cell, i: int, size: nat): nat
    requires size > 0
  {
    match c
    case Blank => 0
    case Tile(t) => Abs((t - 1) / size - i / size) + Abs((t - 1) % size - i % size)
  }

  /** The distances of the first n cells, summed. */
  function DistanceUpTo(s: Board, size: nat, n: nat): nat
    requires size > 0 && n <= |s|
  {
    if n == 0 then 0 else DistanceUpTo(s, size, n - 1) + CellDistance(s[n - 1], n - 1, size)
  }

  function Manhattan(s: Board, size: nat): nat
    requires size > 0
  {
    DistanceUpTo(s, size, |s|)
  }

  /** `manhattan_distance(state)`: accumulates the per-tile distances in a loop,
      skipping the blank. */
  method ManhattanDistance(state: Board, size: nat) returns (distance: int)
    requires size > 0
    ensures distance == Manhattan(state, size) && distance >= 0
  {
    distance := 0;
    var i := 0;
    while i < |state|
      invariant 0 <= i <= |state|
      invariant distance == DistanceUpTo(state, size, i)
    {
      match state[i] {
        case Blank =>
        case Tile(tile) =>
          var correctRow, correctCol := (tile - 1) / size, (tile - 1) % size;
          var currentRow, currentCol := i / size, i % size;
          distance := distance + Abs(correctRow - currentRow) + Abs(correctCol - currentCol);
      }
      i := i + 1;
    }
  }

  /** A tile costs nothing exactly when it sits at index `tile - 1`. */
  lemma CellDistanceZero(t: int, i: nat, size: nat)
    requires size > 0
    ensures CellDistance(Tile(t), i, size) == 0 <==> t - 1 == i
  {
    if CellDistance(Tile(t), i, size) == 0 {
      assert t - 1 == ((t - 1) / size) * size + (t - 1) % size;
      assert i == (i / size) * size + i % size;
    }
  }

  /** The heuristic is 0 exactly when every tile t sits at index t - 1. */
  lemma {:induction false} DistanceUpToZero(s: Board, size: nat, n: nat)
    requires size > 0 && n <= |s|
    ensures DistanceUpTo(s, size, n) == 0 <==>
      forall i :: 0 <= i < n && s[i].Tile? ==> s[i].num == i + 1
  {
    if n > 0 {
      DistanceUpToZero(s, size, n - 1);
      if s[n - 1].Tile? {
        CellDistanceZero(s[n - 1].num, n - 1, size);
      }
    }
  }

  lemma ManhattanZero(s: Board, size: nat)
    requires size > 0
    ensures Manhattan(s, size) == 0 <==> forall i :: 0 <= i < |s| && s[i].Tile? ==> s[i].num == i + 1
  {
    DistanceUpToZero(s, size, |s|);
  }

  /** The canonical goal scores 0. */
  lemma GoalScoresZero(size: nat)
    requires size > 0
    ensures Manhattan(Goal(size), size) == 0
  {
    ManhattanZero(Goal(size), size);
  }
}
