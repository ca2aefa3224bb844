/** Neighbor generation (puzzle/utils.py, `find_neighbors_static`): the boards one
    blank-swap away, tried in the fixed offset order up, down, left, right. */
module Neighborhood {
  import opened Tiles

  /** The (row, col) offsets, in the order they are tried. */
  const Offsets: seq<(int, int)> := [(-1, 0), (1, 0), (0, -1), (0, 1)]

  /** The cell the offset points to from the blank lies on the board. */
  predicate OnBoard(s: Board, size: nat, d: (int, int))
    requires Shape(s, size)
  {
    var b := BlankIndex(s);
    0 <= b / size + d.0 < size && 0 <= b % size + d.1 < size
  }

  /** The index `new_row * size + new_col` of that cell. */
  function Target(s: Board, size: nat, d: (int, int)): (j: nat)
    requires Shape(s, size) && OnBoard(s, size, d)
    ensures j < |s|
  {
    var b := BlankIndex(s);
    IndexOfCell(b / size + d.0, b % size + d.1, size);
    (b / size + d.0) * size + (b % size + d.1)
  }

  /** The target's row and column are the blank's, moved by the offset. */
  lemma TargetCell(s: Board, size: nat, d: (int, int))
    requires Shape(s, size) && OnBoard(s, size, d)
    ensures var b, j := BlankIndex(s), Target(s, size, d);
      j / size == b / size + d.0 && j % size == b % size + d.1
  {
    var b := BlankIndex(s);
    IndexOfCell(b / size + d.0, b % size + d.1, size);
  }

  /** What one offset contributes: the swapped board, or nothing off the board. */
  function Candidate(s: Board, size: nat, d: (int, int)): seq<Board>
    requires Shape(s, size)
  {
    if OnBoard(s, size, d) then [Swap(s, BlankIndex(s), Target(s, size, d))] else []
  }

  /** The boards the first k offsets contribute, in order. */
  function CandidatesUpTo(s: Board, size: nat, k: nat): seq<Board>
    requires Shape(s, size) && k <= |Offsets|
  {
    if k == 0 then [] else CandidatesUpTo(s, size, k - 1) + Candidate(s, size, Offsets[k - 1])
  }

  /** The neighbors of a board. */
  function Neighbors(s: Board, size: nat): seq<Board>
    requires Shape(s, size)
  {
    Candidate(s, size, Offsets[0]) + Candidate(s, size, Offsets[1])
    + Candidate(s, size, Offsets[2]) + Candidate(s, size, Offsets[3])
  }

  /** `find_neighbors_static(state, size)`: loops over the offsets, appending a
      swapped copy of the input for each one that stays on the board. */
  method FindNeighborsStatic(state: Board, size: nat) returns (neighbors: seq<Board>)
    requires Shape(state, size)
    ensures neighbors == Neighbors(state, size)
  {
    var emptyIndex := BlankIndex(state);
    var emptyRow, emptyCol := emptyIndex / size, emptyIndex % size;
    neighbors := [];
    var k := 0;
    while k < |Offsets|
      invariant 0 <= k <= |Offsets|
      invariant neighbors == CandidatesUpTo(state, size, k)
    {
      var (dRow, dCol) := Offsets[k];
      var newRow, newCol := emptyRow + dRow, emptyCol + dCol;
      if 0 <= newRow < size && 0 <= newCol < size {
        var newIndex := newRow * size + newCol;
        assert newIndex == Target(state, size, Offsets[k]);
        var newState := Swap(state, emptyIndex, newIndex);
        neighbors := neighbors + [newState];
      }
      k := k + 1;
    }
    AllCandidates(state, size);
  }

  lemma AllCandidates(s: Board, size: nat)
    requires Shape(s, size)
    ensures CandidatesUpTo(s, size, 4) == Neighbors(s, size)
  {
    assert CandidatesUpTo(s, size, 1) == Candidate(s, size, Offsets[0]);
    assert CandidatesUpTo(s, size, 2) == CandidatesUpTo(s, size, 1) + Candidate(s, size, Offsets[1]);
    assert CandidatesUpTo(s, size, 3) == CandidatesUpTo(s, size, 2) + Candidate(s, size, Offsets[2]);
  }

  /** Rows and columns of the blank's adjacent cells. */
  lemma AdjacentCases(b: nat, j: nat, size: nat)
    requires size > 0 && b < size * size && j < size * size && Adjacent(b, j, size)
    ensures var r, c := b / size, b % size;
      || (j / size == r - 1 && j % size == c)
      || (j / size == r + 1 && j % size == c)
      || (j / size == r && j % size == c - 1)
      || (j / size == r && j % size == c + 1)
  {
  }

  /** Every neighbor is the input with the blank and one grid-adjacent cell
      exchanged: the cell its blank came from. */
  lemma NeighborIndex(s: Board, size: nat, t: Board) returns (j: nat)
    requires Shape(s, size) && t in Neighbors(s, size)
    ensures j < |s| && Adjacent(BlankIndex(s), j, size) && t == Swap(s, BlankIndex(s), j)
  {
    var d := NeighborOffset(s, size, t);
    j := Target(s, size, Offsets[d]);
    TargetAdjacent(s, size, d);
  }

  /** The offset that produced a neighbor. */
  lemma NeighborOffset(s: Board, size: nat, t: Board) returns (d: nat)
    requires Shape(s, size) && t in Neighbors(s, size)
    ensures d < 4 && OnBoard(s, size, Offsets[d]) && t == Swap(s, BlankIndex(s), Target(s, size, Offsets[d]))
  {
    if t in Candidate(s, size, Offsets[0]) {
      d := 0;
    } else if t in Candidate(s, size, Offsets[1]) {
      d := 1;
    } else if t in Candidate(s, size, Offsets[2]) {
      d := 2;
    } else {
      d := 3;
    }
  }

  /** Each offset's target is grid-adjacent to the blank. */
  lemma TargetAdjacent(s: Board, size: nat, d: nat)
    requires Shape(s, size) && d < 4 && OnBoard(s, size, Offsets[d])
    ensures Adjacent(BlankIndex(s), Target(s, size, Offsets[d]), size)
  {
    TargetCell(s, size, Offsets[d]);
  }

  /** Conversely every exchange of the blank with a grid-adjacent cell is a neighbor. */
  lemma AdjacentSwapIsNeighbor(s: Board, size: nat, j: nat)
    requires Shape(s, size) && j < |s| && Adjacent(BlankIndex(s), j, size)
    ensures Swap(s, BlankIndex(s), j) in Neighbors(s, size)
  {
    var b := BlankIndex(s);
    CellOfIndex(j, size);
    CellOfIndex(b, size);
    AdjacentCases(b, j, size);
    var r, c := b / size, b % size;
    var d: nat;
    if j / size == r - 1 && j % size == c {
      d := 0;
    } else if j / size == r + 1 && j % size == c {
      d := 1;
    } else if j / size == r && j % size == c - 1 {
      d := 2;
    } else {
      d := 3;
    }
    assert OnBoard(s, size, Offsets[d]);
    var k := Target(s, size, Offsets[d]);
    CellOfIndex(k, size);
    assert k == j;
    assert Swap(s, b, j) in Candidate(s, size, Offsets[d]);
    CandidateInNeighbors(s, size, d);
  }

  lemma CandidateInNeighbors(s: Board, size: nat, d: nat)
    requires Shape(s, size) && d < 4
    ensures forall t :: t in Candidate(s, size, Offsets[d]) ==> t in Neighbors(s, size)
  {
  }

  /** Which offset produced a neighbor, read off where its blank went. */
  function Rank(s: Board, size: nat, t: Board): nat
    requires Shape(s, size) && Blank in t
  {
    var b, j := BlankIndex(s), BlankIndex(t);
    if j + size == b then 0 else if j == b + size then 1 else if j + 1 == b then 2 else 3
  }

  /** The four targets are the cells above, below, left of and right of the blank. */
  lemma TargetOffset(s: Board, size: nat, d: nat)
    requires Shape(s, size) && d < 4 && OnBoard(s, size, Offsets[d])
    ensures Target(s, size, Offsets[d]) == BlankIndex(s) + [-(size as int), size as int, -1, 1][d]
  {
    var b, j := BlankIndex(s), Target(s, size, Offsets[d]);
    TargetCell(s, size, Offsets[d]);
    ShiftedCell(b, j, size, Offsets[d].0, Offsets[d].1);
  }

  lemma ShiftedCell(b: nat, j: nat, size: nat, dr: int, dc: int)
    requires size > 0 && b < size * size && j < size * size
    requires j / size == b / size + dr && j % size == b % size + dc
    ensures j == b + dr * size + dc
  {
    CellOfIndex(b, size);
    CellOfIndex(j, size);
    assert j == (b / size + dr) * size + b % size + dc;
  }

  lemma RankOfCandidate(s: Board, size: nat, d: nat)
    requires WellFormed(s, size) && d < 4 && OnBoard(s, size, Offsets[d])
    ensures var t := Swap(s, BlankIndex(s), Target(s, size, Offsets[d]));
      Blank in t && Rank(s, size, t) == d
  {
    var b, j := BlankIndex(s), Target(s, size, Offsets[d]);
    TargetOffset(s, size, d);
    if d >= 2 {
      assert size >= 2;
    }
    SwapKeepsOneBlank(s, b, j);
    BlankIndexUnique(Swap(s, b, j), j);
  }

  /** The boards the first k offsets contribute come out in offset order. */
  lemma {:induction false} CandidatesInOrder(s: Board, size: nat, k: nat)
    requires WellFormed(s, size) && k <= 4
    ensures forall i :: 0 <= i < |CandidatesUpTo(s, size, k)| ==>
      var t := CandidatesUpTo(s, size, k)[i];
      Blank in t && Rank(s, size, t) < k && OnBoard(s, size, Offsets[Rank(s, size, t)])
      && t == Swap(s, BlankIndex(s), Target(s, size, Offsets[Rank(s, size, t)]))
    ensures forall i, m :: 0 <= i < m < |CandidatesUpTo(s, size, k)| ==>
      Rank(s, size, CandidatesUpTo(s, size, k)[i]) < Rank(s, size, CandidatesUpTo(s, size, k)[m])
  {
    if k > 0 {
      var c, front := CandidatesUpTo(s, size, k), CandidatesUpTo(s, size, k - 1);
      var last := Candidate(s, size, Offsets[k - 1]);
      assert c == front + last;
      CandidatesInOrder(s, size, k - 1);
      if OnBoard(s, size, Offsets[k - 1]) {
        RankOfCandidate(s, size, k - 1);
        assert |c| == |front| + 1 && c[|front|] == last[0];
      } else {
        assert c == front;
      }
    }
  }

  /** Neighbors come out in offset order (up, down, left, right), the ones whose
      cell is off the board skipped. */
  lemma NeighborsInOffsetOrder(s: Board, size: nat)
    requires WellFormed(s, size)
    ensures forall k :: 0 <= k < |Neighbors(s, size)| ==>
      var t := Neighbors(s, size)[k];
      Blank in t && Rank(s, size, t) < 4 && OnBoard(s, size, Offsets[Rank(s, size, t)])
      && t == Swap(s, BlankIndex(s), Target(s, size, Offsets[Rank(s, size, t)]))
    ensures forall k, m :: 0 <= k < m < |Neighbors(s, size)| ==>
      Rank(s, size, Neighbors(s, size)[k]) < Rank(s, size, Neighbors(s, size)[m])
    ensures forall d :: 0 <= d < 4 && OnBoard(s, size, Offsets[d]) ==>
      Swap(s, BlankIndex(s), Target(s, size, Offsets[d])) in Neighbors(s, size)
  {
    AllCandidates(s, size);
    CandidatesInOrder(s, size, 4);
  }

  lemma NeighborsDistinct(s: Board, size: nat)
    requires WellFormed(s, size)
    ensures forall k, m :: 0 <= k < m < |Neighbors(s, size)| ==> Neighbors(s, size)[k] != Neighbors(s, size)[m]
    ensures s !in Neighbors(s, size)
  {
    NeighborsInOffsetOrder(s, size);
    forall t | t in Neighbors(s, size) ensures t != s {
      NeighborFacts(s, size, t);
    }
  }

  /** A neighbor keeps the board's shape and cells, and its single blank. */
  lemma NeighborFacts(s: Board, size: nat, t: Board)
    requires Shape(s, size) && t in Neighbors(s, size)
    ensures Shape(t, size) && multiset(t) == multiset(s)
    ensures forall k :: 0 <= k < |t| ==> t[k] in s
    ensures OneBlank(s) ==> OneBlank(t) && t != s
  {
    var b := BlankIndex(s);
    var j := NeighborIndex(s, size, t);
    SwapPermutes(s, b, j);
    assert t[j] == Blank;
    forall k | 0 <= k < |t| ensures t[k] in s {
      assert t[k] in multiset(s);
    }
    if OneBlank(s) {
      assert b != j;
      SwapKeepsOneBlank(s, b, j);
    }
  }

  /** 2 neighbors in a corner, 3 on an edge, 4 in the interior; always 2 on a 2x2
      board and none on a 1x1 board. */
  lemma NeighborCount(s: Board, size: nat)
    requires Shape(s, size)
    ensures var b := BlankIndex(s);
      var rowEdge := b / size == 0 || b / size == size - 1;
      var colEdge := b % size == 0 || b % size == size - 1;
      && (size >= 2 && rowEdge && colEdge ==> |Neighbors(s, size)| == 2)
      && (size >= 2 && rowEdge != colEdge ==> |Neighbors(s, size)| == 3)
      && (size >= 2 && !rowEdge && !colEdge ==> |Neighbors(s, size)| == 4)
      && (size == 2 ==> |Neighbors(s, size)| == 2)
      && (size == 1 ==> |Neighbors(s, size)| == 0)
  {
    CellOfIndex(BlankIndex(s), size);
  }

  /** The input is among the neighbors of each of its neighbors. */
  lemma NeighborsSymmetric(s: Board, size: nat, t: Board)
    requires WellFormed(s, size) && t in Neighbors(s, size)
    ensures Shape(t, size) && s in Neighbors(t, size)
  {
    var b := BlankIndex(s);
    var j := NeighborIndex(s, size, t);
    assert b != j;
    SwapKeepsOneBlank(s, b, j);
    BlankIndexUnique(t, j);
    assert Adjacent(j, b, size);
    AdjacentSwapIsNeighbor(t, size, b);
    SwapBack(s, b, j);
  }
}
