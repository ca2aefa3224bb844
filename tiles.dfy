/** The board model shared by every part of the engine: a flat, row-major list of
    size*size cells, one of which is the blank (Python's None). */
module Tiles {

  datatype Option<T> = None | Some(value: T)

  /** One cell: a numbered tile or the blank. */
  datatype Cell = Blank | Tile(num: int)

  type Board = seq<Cell>

  function Abs(x: int): nat
  {
    if x < 0 then -x else x
  }

  /** What the neighbor generator demands of its input: a positive width, size*size
      cells, and a blank for `state.index(None)` to find. */
  predicate Shape(s: Board, size: nat)
  {
    size > 0 && |s| == size * size && Blank in s
  }

  /** No cell value occurs twice: what a shuffle of the goal keeps. */
  predicate AllDistinct(s: Board)
  {
    forall i, j :: 0 <= i < j < |s| ==> s[i] != s[j]
  }

  /** At most one blank. */
  predicate OneBlank(s: Board)
  {
    forall i, j :: 0 <= i < |s| && 0 <= j < |s| && s[i] == Blank && s[j] == Blank ==> i == j
  }

  predicate WellFormed(s: Board, size: nat)
  {
    Shape(s, size) && OneBlank(s)
  }

  /** `state.index(None)`: the first position holding the blank. */
  function BlankIndex(s: Board): (i: nat)
    requires Blank in s
    ensures i < |s| && s[i] == Blank
    ensures forall k :: 0 <= k < i ==> s[k] != Blank
  {
    if s[0] == Blank then 0 else 1 + BlankIndex(s[1..])
  }

  /** On a board with one blank, any position holding the blank is the blank's index. */
  lemma BlankIndexUnique(s: Board, j: nat)
    requires OneBlank(s) && j < |s| && s[j] == Blank
    ensures BlankIndex(s) == j
  {
  }

  /** A copy of the board with cells i and j exchanged. */
  function Swap(s: Board, i: nat, j: nat): (r: Board)
    requires i < |s| && j < |s|
    ensures |r| == |s| && r[i] == s[j] && r[j] == s[i]
    ensures forall k :: 0 <= k < |s| && k != i && k != j ==> r[k] == s[k]
  {
    s[i := s[j]][j := s[i]]
  }

  lemma SwapPermutes(s: Board, i: nat, j: nat)
    requires i < |s| && j < |s|
    ensures multiset(Swap(s, i, j)) == multiset(s)
  {
  }

  lemma SwapBack(s: Board, i: nat, j: nat)
    requires i < |s| && j < |s|
    ensures Swap(Swap(s, i, j), j, i) == s
  {
  }

  /** Swapping the blank with a tile keeps exactly one blank. */
  lemma SwapKeepsOneBlank(s: Board, b: nat, j: nat)
    requires b < |s| && j < |s| && OneBlank(s) && s[b] == Blank && b != j
    ensures OneBlank(Swap(s, b, j)) && Swap(s, b, j)[j] == Blank
    ensures Swap(s, b, j) != s
  {
    var r := Swap(s, b, j);
    assert s[j] != Blank;
    assert r[b] != s[b];
  }

  /** Grid adjacency: the Manhattan distance between the two cells' (row, col) is 1.
      This is the test `move_tile` applies. */
  predicate Adjacent(i: int, j: int, size: nat)
    requires size > 0
  {
    Abs(i / size - j / size) + Abs(i % size - j % size) == 1
  }

  /** The canonical goal `list(range(1, n*n)) + [None]`. */
  function Goal(size: nat): (g: Board)
    requires size > 0
    ensures |g| == size * size
  {
    seq(size * size - 1, i => Tile(i + 1)) + [Blank]
  }

  /** Row-major index of (row, col), and its inverse by div/mod. */
  lemma IndexOfCell(r: int, c: int, size: nat)
    requires size > 0 && 0 <= r < size && 0 <= c < size
    ensures 0 <= r * size + c < size * size
    ensures (r * size + c) / size == r && (r * size + c) % size == c
  {
    MulMono(0, r, size);
    MulMono(r, size - 1, size);
    Distrib(size, 1, size);
    DivModUnique(r * size + c, size, r, c);
  }

  lemma DivModUnique(a: int, size: nat, q: int, m: int)
    requires size > 0 && 0 <= m < size && a == q * size + m
    ensures a / size == q && a % size == m
  {
    var q', m' := a / size, a % size;
    var d := q - q';
    Distrib(q, q', size);
    assert d * size == m' - m;
    if d >= 1 {
      MulMono(1, d, size);
    } else if d <= -1 {
      MulMono(d, -1, size);
    }
  }

  lemma Distrib(x: int, y: int, k: int)
    ensures x * k - y * k == (x - y) * k
  {
  }

  lemma MulMono(x: int, y: int, k: nat)
    requires x <= y
    ensures x * k <= y * k
  {
    Distrib(y, x, k);
    MulNonNegative(y - x, k);
  }

  lemma MulNonNegative(x: nat, y: nat)
    ensures x * y >= 0
  {
  }

  /** Each position is determined by its (row, col). */
  lemma CellOfIndex(i: int, size: nat)
    requires size > 0 && 0 <= i < size * size
    ensures 0 <= i / size < size && 0 <= i % size < size
    ensures i == (i / size) * size + i % size
  {
    if i / size >= size {
      MulMono(size, i / size, size);
    }
  }

  lemma GoalDistinct(size: nat)
    requires size > 0
    ensures AllDistinct(Goal(size))
  {
  }

  /** Distinct values occur once each. */
  lemma {:induction false} DistinctCounts(s: Board)
    requires AllDistinct(s)
    ensures forall x :: multiset(s)[x] <= 1
  {
    if s != [] {
      var front := s[..|s| - 1];
      assert s == front + [s[|s| - 1]];
      DistinctCounts(front);
      assert s[|s| - 1] !in front;
    }
  }

  /** A board holding the goal's cells, each as often, is a well-formed board with
      no repeated cell, whatever their order: what `shuffle_tiles` produces. */
  lemma PermutationOfGoal(s: Board, size: nat)
    requires size > 0 && multiset(s) == multiset(Goal(size))
    ensures WellFormed(s, size) && AllDistinct(s)
  {
    var g := Goal(size);
    assert |s| == |multiset(s)| == |g|;
    assert g[|g| - 1] == Blank;
    assert Blank in multiset(g);
    GoalDistinct(size);
    DistinctCounts(g);
    forall i, j | 0 <= i < j < |s| ensures s[i] != s[j] {
      if s[i] == s[j] {
        RepeatCounts(s, i, j);
      }
    }
  }

  /** A value at two positions occurs at least twice. */
  lemma RepeatCounts(s: Board, i: nat, j: nat)
    requires i < j < |s| && s[i] == s[j]
    ensures multiset(s)[s[i]] >= 2
  {
    var front := s[..j];
    assert s == front + s[j..];
    assert s[i] in front;
    assert s[j..][0] == s[j];
  }

  /** Swapping two cells keeps the cells distinct. */
  lemma SwapKeepsDistinct(s: Board, i: nat, j: nat)
    requires i < |s| && j < |s| && AllDistinct(s)
    ensures AllDistinct(Swap(s, i, j))
  {
    var r := Swap(s, i, j);
    forall a, b | 0 <= a < b < |r| ensures r[a] != r[b] {
      var a' := if a == i then j else if a == j then i else a;
      var b' := if b == i then j else if b == j then i else b;
      assert r[a] == s[a'] && r[b] == s[b'] && a' != b';
    }
  }
}
