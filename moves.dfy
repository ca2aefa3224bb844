/** `move_tile(row, col)` in puzzle/puzzle.py and src/main.py: when (row, col) is at
    distance 1 from the blank's row and column, the blank and the cell at the flat
    index `row * size + col` trade places; otherwise nothing happens. On the board,
    that cell is the grid-adjacent one; off the board, the index is read the way a
    Python list reads it. */
module Moves {
  import opened Tiles
  import opened Neighborhood
  import opened Solvability
  import opened Parity

  /** A Python list index k on a list of length n: a negative index counts from the
      end, and any other index off the list raises IndexError (None). */
  function ListIndex(k: int, n: nat): (r: Option<nat>)
    ensures r.Some? ==> r.value < n && (r.value == k || r.value == k + n)
  {
    if 0 <= k < n then Some(k) else if k < 0 && 0 <= k + n then Some(k + n) else None
  }

  /** What `move_tile(row, col)` does for any ints row and col: the new board, or None
      for the IndexError the exchange raises before it changes anything. */
  function Click(s: Board, size: nat, row: int, col: int): Option<Board>
    requires Shape(s, size)
  {
    var b := BlankIndex(s);
    if Abs(b / size - row) + Abs(b % size - col) != 1 then Some(s)
    else match ListIndex(row * size + col, |s|)
      case None => None
      case Some(j) => Some(Swap(s, b, j))
  }

  /** A click on the board never raises, and leaves the board `Move` gives. */
  lemma ClickOnBoard(s: Board, size: nat, row: int, col: int)
    requires Shape(s, size) && 0 <= row < size && 0 <= col < size
    ensures Click(s, size, row, col) == Some(Move(s, size, row, col))
  {
    IndexOfCell(row, col, size);
  }

  /** Whatever the click, a board it leaves holds the same cells and a single blank. */
  lemma ClickKeepsCells(s: Board, size: nat, row: int, col: int)
    requires WellFormed(s, size)
    ensures Click(s, size, row, col).Some? ==>
      WellFormed(Click(s, size, row, col).value, size) &&
      multiset(Click(s, size, row, col).value) == multiset(s)
  {
    var b := BlankIndex(s);
    if Abs(b / size - row) + Abs(b % size - col) == 1 && ListIndex(row * size + col, |s|).Some? {
      var j := ListIndex(row * size + col, |s|).value;
      SwapPermutes(s, b, j);
      if j != b {
        SwapKeepsOneBlank(s, b, j);
      } else {
        assert Swap(s, b, j) == s;
      }
    }
  }

  /** Clicking just past the right end of the top row, with the blank in the top
      right corner, passes the distance test and exchanges the blank with the first
      cell of the next row, which is not grid-adjacent to it. The tiles read in order
      stay the same, so the verdict of the inversion test does too. */
  lemma ClickPastRightEdge(s: Board, size: nat)
    requires WellFormed(s, size) && size > 1 && BlankIndex(s) == size - 1
    ensures Click(s, size, 0, size) == Some(Swap(s, size - 1, size))
    ensures !Adjacent(size - 1, size, size)
    ensures Solvable(Swap(s, size - 1, size)) == Solvable(s)
  {
    MulMono(2, size, size);
    DivModUnique(size - 1, size, 0, size - 1);
    DivModUnique(size, size, 1, 0);
    assert ListIndex(0 * size + size, |s|) == Some(size);
    SidewaysMoveKeepsVerdict(s, size - 1, size);
  }

  /** The board a click on (row, col) leaves. */
  function Move(s: Board, size: nat, row: int, col: int): Board
    requires Shape(s, size) && 0 <= row < size && 0 <= col < size
  {
    IndexOfCell(row, col, size);
    var b, j := BlankIndex(s), row * size + col;
    if Adjacent(b, j, size) then Swap(s, b, j) else s
  }

  /** A click next to the blank slides that tile into the blank, which gives one of
      the neighbors the searches generate; any other click leaves the board as it
      is. Either way the board keeps its cells and its single blank. */
  lemma MoveIsNeighbor(s: Board, size: nat, row: int, col: int)
    requires WellFormed(s, size) && 0 <= row < size && 0 <= col < size
    ensures var j := row * size + col;
      && (Move(s, size, row, col) != s <==> Adjacent(BlankIndex(s), j, size))
      && (Adjacent(BlankIndex(s), j, size) ==>
            Move(s, size, row, col) in Neighbors(s, size) && Move(s, size, row, col)[j] == Blank)
    ensures WellFormed(Move(s, size, row, col), size)
    ensures multiset(Move(s, size, row, col)) == multiset(s)
  {
    IndexOfCell(row, col, size);
    var b, j := BlankIndex(s), row * size + col;
    if Adjacent(b, j, size) {
      assert b != j;
      SwapKeepsOneBlank(s, b, j);
      SwapPermutes(s, b, j);
      AdjacentSwapIsNeighbor(s, size, j);
    }
  }

  /** Conversely every neighbor is what some click on the board produces. */
  lemma NeighborIsMove(s: Board, size: nat, t: Board)
    requires Shape(s, size) && t in Neighbors(s, size)
    ensures exists row, col :: 0 <= row < size && 0 <= col < size && Move(s, size, row, col) == t
  {
    var j := NeighborIndex(s, size, t);
    CellOfIndex(j, size);
    var row, col := j / size, j % size;
    assert row * size + col == j;
    assert Move(s, size, row, col) == t;
  }

  /** On an odd-width board with distinct cells a click never changes the verdict of
      the inversion test. */
  lemma MoveKeepsVerdict(s: Board, size: nat, row: int, col: int)
    requires Shape(s, size) && AllDistinct(s) && size % 2 == 1 && 0 <= row < size && 0 <= col < size
    ensures AllDistinct(Move(s, size, row, col))
    ensures Solvable(Move(s, size, row, col)) == Solvable(s)
  {
    IndexOfCell(row, col, size);
    var b, j := BlankIndex(s), row * size + col;
    if Adjacent(b, j, size) {
      SwapKeepsDistinct(s, b, j);
      AdjacentSwapKeepsVerdict(s, size, b, j);
    }
  }
}
