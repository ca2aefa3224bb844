/** Why the inversion test is a sound filter on odd-width boards: no move changes the
    parity of the inversion count, and the goal has none, so a board the test rejects
    can never be moved into the goal. */
module Parity {
  import opened Tiles
  import opened Neighborhood
  import opened Paths
  import opened Solvability

  /** A tile x carried over a run m of tiles, from one side of the blank to the other,
      changes the parity of the inversions by |m|. */
  lemma ShiftTile(p: Board, x: Cell, m: Board, q: Board)
    requires x != Blank && x !in m && Blank !in m
    ensures (Inversions(TileValues(p + [x] + m + [Blank] + q)) + |m|) % 2
         == Inversions(TileValues(p + [Blank] + m + [x] + q)) % 2
  {
    var tp, tm, tq := TileValues(p), TileValues(m), TileValues(q);
    ReadTileThenBlank(p, x, m, q);
    ReadBlankThenTile(p, x, m, q);
    TileValuesNoBlank(m);
    TileValuesHold(m, x.num);
    assert x == Tile(x.num);
    assert x.num !in tm && |tm| == |m|;
    InversionsShift(tp, x.num, tm, tq);
    var u, w := tp + [x.num] + tm + tq, tp + tm + [x.num] + tq;
    assert Inversions(TileValues(p + [x] + m + [Blank] + q)) == Inversions(u);
    assert Inversions(TileValues(p + [Blank] + m + [x] + q)) == Inversions(w);
  }

  /** The values read from p, x, m, the blank and q. */
  lemma ReadTileThenBlank(p: Board, x: Cell, m: Board, q: Board)
    requires x != Blank
    ensures TileValues(p + [x] + m + [Blank] + q) == TileValues(p) + [x.num] + TileValues(m) + TileValues(q)
  {
    var front := p + [x] + m;
    ReadThrough(front, Blank, q);
    ReadThrough(p, x, m);
    assert TileValues(front) + [] == TileValues(front);
  }

  /** The values read from p, the blank, m, x and q. */
  lemma ReadBlankThenTile(p: Board, x: Cell, m: Board, q: Board)
    requires x != Blank
    ensures TileValues(p + [Blank] + m + [x] + q) == TileValues(p) + TileValues(m) + [x.num] + TileValues(q)
  {
    ReadThrough(p + [Blank] + m, x, q);
    ReadThrough(p, Blank, m);
    assert TileValues(p) + [] == TileValues(p);
  }

  /** Reading over one cell: a tile adds its number, the blank nothing. */
  lemma ReadThrough(a: Board, c: Cell, b: Board)
    ensures TileValues(a + [c] + b) == TileValues(a) + (if c == Blank then [] else [c.num]) + TileValues(b)
  {
    TileValuesConcat(a + [c], b);
    TileValuesConcat(a, [c]);
    assert [c][1..] == [];
    if c == Blank {
      assert TileValues(a) + [] == TileValues(a);
    }
  }

  /** Sliding the blank up or down passes size - 1 tiles, an even number on an
      odd-width board, so the verdict stays. */
  lemma VerticalMoveKeepsVerdict(s: Board, size: nat, b: nat, j: nat)
    requires AllDistinct(s) && b < |s| && j < |s| && s[b] == Blank
    requires size % 2 == 1 && (j == b + size || b == j + size)
    ensures Solvable(Swap(s, b, j)) == Solvable(s)
  {
    var lo, hi := if b < j then b else j, if b < j then j else b;
    var p, m, q := s[..lo], s[lo + 1..hi], s[hi + 1..];
    SplitAround(s, lo, hi);
    RunAvoids(s, lo, hi);
    assert |m| == size - 1;
    SwapSymmetric(s, b, j);
    ShiftKeepsVerdict(p, s[j], m, q);
  }

  /** A board cut at lo and hi into five parts, before and after exchanging the two. */
  lemma SplitAround(s: Board, lo: nat, hi: nat)
    requires lo < hi < |s|
    ensures s == s[..lo] + [s[lo]] + s[lo + 1..hi] + [s[hi]] + s[hi + 1..]
    ensures Swap(s, lo, hi) == s[..lo] + [s[hi]] + s[lo + 1..hi] + [s[lo]] + s[hi + 1..]
  {
    var t, u := Swap(s, lo, hi), s[..lo] + [s[hi]] + s[lo + 1..hi] + [s[lo]] + s[hi + 1..];
    assert s == s[..lo] + [s[lo]] + s[lo + 1..hi] + [s[hi]] + s[hi + 1..];
    forall k | 0 <= k < |t| ensures t[k] == u[k] {
      if k < lo {
        assert u[k] == s[k];
      } else if k == lo {
        assert u[k] == s[hi];
      } else if k < hi {
        assert u[k] == s[k];
      } else if k == hi {
        assert u[k] == s[lo];
      } else {
        assert u[k] == s[k];
      }
    }
  }

  lemma SwapSymmetric(s: Board, i: nat, j: nat)
    requires i < |s| && j < |s|
    ensures Swap(s, i, j) == Swap(s, j, i)
  {
  }

  /** On a board with distinct cells, neither end of a run occurs inside it. */
  lemma RunAvoids(s: Board, lo: nat, hi: nat)
    requires AllDistinct(s) && lo < hi < |s|
    ensures s[lo] !in s[lo + 1..hi] && s[hi] !in s[lo + 1..hi]
  {
    var m := s[lo + 1..hi];
    forall k | 0 <= k < |m| ensures m[k] != s[lo] && m[k] != s[hi] {
      assert m[k] == s[lo + 1 + k];
    }
  }

  /** Carrying a tile over an even run of tiles, past the blank, keeps the verdict. */
  lemma ShiftKeepsVerdict(p: Board, x: Cell, m: Board, q: Board)
    requires x != Blank && x !in m && Blank !in m && |m| % 2 == 0
    ensures Solvable(p + [x] + m + [Blank] + q) == Solvable(p + [Blank] + m + [x] + q)
  {
    ShiftTile(p, x, m, q);
    EvenShift(Inversions(TileValues(p + [x] + m + [Blank] + q)), |m|);
  }

  lemma EvenShift(a: int, e: nat)
    requires e % 2 == 0
    ensures (a + e) % 2 == a % 2
  {
  }

  /** A neighbor of a board with distinct cells has distinct cells and, on an
      odd-width board, the same verdict. */
  lemma NeighborKeepsVerdict(s: Board, size: nat, t: Board)
    requires Shape(s, size) && AllDistinct(s) && size % 2 == 1 && t in Neighbors(s, size)
    ensures AllDistinct(t) && Solvable(t) == Solvable(s)
  {
    var b := BlankIndex(s);
    var j := NeighborIndex(s, size, t);
    SwapKeepsDistinct(s, b, j);
    AdjacentSwapKeepsVerdict(s, size, b, j);
  }

  /** Exchanging the blank with a grid-adjacent cell: sideways or vertically. */
  lemma AdjacentSwapKeepsVerdict(s: Board, size: nat, b: nat, j: nat)
    requires size > 0 && |s| == size * size && b < |s| && j < |s| && s[b] == Blank
    requires AllDistinct(s) && size % 2 == 1 && Adjacent(b, j, size)
    ensures Solvable(Swap(s, b, j)) == Solvable(s)
  {
    CellOfIndex(b, size);
    CellOfIndex(j, size);
    AdjacentCases(b, j, size);
    if j / size == b / size {
      ShiftedCell(b, j, size, 0, j % size - b % size);
      SidewaysMoveKeepsVerdict(s, b, j);
    } else {
      ShiftedCell(b, j, size, j / size - b / size, 0);
      VerticalMoveKeepsVerdict(s, size, b, j);
    }
  }

  /** Along any path the cells stay distinct and the verdict never changes. */
  lemma {:induction false} PathKeepsVerdict(start: Board, p: seq<Board>, size: nat)
    requires Shape(start, size) && AllDistinct(start) && size % 2 == 1 && IsPath(start, p, size)
    ensures Shape(End(start, p), size) && AllDistinct(End(start, p))
    ensures Solvable(End(start, p)) == Solvable(start)
    decreases |p|
  {
    if p != [] {
      LastStep(start, p, size);
      PathKeepsVerdict(start, p[..|p| - 1], size);
      var before := End(start, p[..|p| - 1]);
      NeighborFacts(before, size, End(start, p));
      NeighborKeepsVerdict(before, size, End(start, p));
    }
  }

  /** On an odd-width board with distinct cells, a board the inversion test rejects
      cannot reach the goal by any sequence of moves. */
  lemma UnsolvableCannotReachGoal(s: Board, size: nat)
    requires Shape(s, size) && AllDistinct(s) && size % 2 == 1 && !Solvable(s)
    ensures !Reachable(s, Goal(size), size)
  {
    GoalIsSolvable(size);
    forall p | IsPath(s, p, size) ensures End(s, p) != Goal(size) {
      PathKeepsVerdict(s, p, size);
    }
  }
}
