/** The solvability pre-check `is_solvable` (puzzle/puzzle.py, src/main.py): the
    number of inversions among the tiles, read row-major with the blank dropped,
    must be even. Only this odd-width rule exists; the blank's row is not consulted. */
module Solvability {
  import opened Tiles

  /** `[t for t in tiles if t is not None]` */
  function TileValues(s: Board): seq<int>
  {
    if s == [] then []
    else (match s[0] case Blank => [] case Tile(t) => [t]) + TileValues(s[1..])
  }

  /** How many entries of w are smaller than x. */
  function CountBelow(x: int, w: seq<int>): nat
  {
    if w == [] then 0 else (if x > w[0] then 1 else 0) + CountBelow(x, w[1..])
  }

  /** The pairs i < j with v[i] > v[j], counted. */
  function Inversions(v: seq<int>): nat
  {
    if v == [] then 0 else CountBelow(v[0], v[1..]) + Inversions(v[1..])
  }

  predicate Solvable(s: Board)
  {
    Inversions(TileValues(s)) % 2 == 0
  }

  /** `is_solvable`: counts the inversions with two nested loops. */
  method IsSolvable(tiles: Board) returns (solvable: bool)
    ensures solvable == Solvable(tiles)
  {
    var inversions := 0;
    var tileValues := TileValues(tiles);
    var i := 0;
    while i < |tileValues|
      invariant 0 <= i <= |tileValues|
      invariant inversions + Inversions(tileValues[i..]) == Inversions(tileValues)
    {
      assert tileValues[i..][1..] == tileValues[i + 1..];
      var j := i + 1;
      while j < |tileValues|
        invariant i + 1 <= j <= |tileValues|
        invariant inversions + CountBelow(tileValues[i], tileValues[j..]) + Inversions(tileValues[i + 1..])
                  == Inversions(tileValues)
      {
        assert tileValues[j..][1..] == tileValues[j + 1..];
        if tileValues[i] > tileValues[j] {
          inversions := inversions + 1;
        }
        j := j + 1;
      }
      i := i + 1;
    }
    solvable := inversions % 2 == 0;
  }

  lemma {:induction false} TileValuesConcat(a: Board, b: Board)
    ensures TileValues(a + b) == TileValues(a) + TileValues(b)
  {
    if a == [] {
      assert a + b == b;
    } else {
      assert (a + b)[0] == a[0];
      assert (a + b)[1..] == a[1..] + b;
      TileValuesConcat(a[1..], b);
    }
  }

  /** Where the blank is inserted makes no difference to the tiles read, so none to
      the verdict. */
  lemma {:induction false} BlankPlacementIrrelevant(u: Board, k: nat)
    requires k <= |u|
    ensures TileValues(u[..k] + [Blank] + u[k..]) == TileValues(u)
    ensures Solvable(u[..k] + [Blank] + u[k..]) == Solvable(u)
  {
    var pre, post := u[..k], u[k..];
    assert TileValues([Blank]) == [] by {
      assert [Blank][1..] == [];
    }
    TileValuesConcat(pre + [Blank], post);
    TileValuesConcat(pre, [Blank]);
    TileValuesConcat(pre, post);
    assert pre + post == u;
  }

  /** So sliding the blank sideways (within a row) never changes the verdict. */
  lemma {:induction false} SidewaysMoveKeepsVerdict(s: Board, b: nat, j: nat)
    requires b < |s| && j < |s| && s[b] == Blank && (j == b + 1 || b == j + 1)
    ensures TileValues(Swap(s, b, j)) == TileValues(s)
    ensures Solvable(Swap(s, b, j)) == Solvable(s)
  {
    if b < j {
      // s = pre + [Blank, x] + post, and the swap gives pre + [x, Blank] + post
      var w := s[..b] + [s[j]] + s[j + 1..];
      assert s == w[..b] + [Blank] + w[b..];
      assert Swap(s, b, j) == w[..j] + [Blank] + w[j..];
      BlankPlacementIrrelevant(w, b);
      BlankPlacementIrrelevant(w, j);
    } else {
      var w := s[..j] + [s[j]] + s[b + 1..];
      assert s == w[..b] + [Blank] + w[b..];
      assert Swap(s, b, j) == w[..j] + [Blank] + w[j..];
      BlankPlacementIrrelevant(w, b);
      BlankPlacementIrrelevant(w, j);
    }
  }

  /** An increasing list has no inversions. */
  lemma {:induction false} IncreasingHasNoInversions(v: seq<int>)
    requires forall i, j :: 0 <= i < j < |v| ==> v[i] < v[j]
    ensures Inversions(v) == 0
  {
    if v != [] {
      NothingBelow(v[0], v[1..]);
      IncreasingHasNoInversions(v[1..]);
    }
  }

  lemma {:induction false} NothingBelow(x: int, w: seq<int>)
    requires forall i :: 0 <= i < |w| ==> x < w[i]
    ensures CountBelow(x, w) == 0
  {
    if w != [] {
      NothingBelow(x, w[1..]);
    }
  }

  /** The goal reads 1, 2, ..., n*n - 1, which has no inversions, so it is solvable. */
  lemma GoalIsSolvable(size: nat)
    requires size > 0
    ensures TileValues(Goal(size)) == seq(size * size - 1, i => i + 1)
    ensures Inversions(TileValues(Goal(size))) == 0 && Solvable(Goal(size))
  {
    var tiles := seq(size * size - 1, i => Tile(i + 1));
    TileValuesConcat(tiles, [Blank]);
    TileValuesOfNumbered(size * size - 1);
    IncreasingHasNoInversions(seq(size * size - 1, i => i + 1));
  }

  lemma {:induction false} TileValuesOfNumbered(n: nat)
    ensures TileValues(seq(n, i => Tile(i + 1))) == seq(n, i => i + 1)
  {
    if n > 0 {
      TileValuesOfNumbered(n - 1);
      assert seq(n, i => Tile(i + 1)) == seq(n - 1, i => Tile(i + 1)) + [Tile(n)];
      TileValuesConcat(seq(n - 1, i => Tile(i + 1)), [Tile(n)]);
      assert seq(n, i => i + 1) == seq(n - 1, i => i + 1) + [n];
    }
  }

  lemma {:induction false} CountBelowConcat(x: int, u: seq<int>, v: seq<int>)
    ensures CountBelow(x, u + v) == CountBelow(x, u) + CountBelow(x, v)
  {
    if u == [] {
      assert u + v == v;
    } else {
      assert (u + v)[1..] == u[1..] + v;
      CountBelowConcat(x, u[1..], v);
    }
  }

  /** Exchanging two neighboring values changes the inversion count by exactly the
      pair itself. */
  lemma {:induction false} InversionsSwapPair(a: seq<int>, x: int, y: int, b: seq<int>)
    ensures Inversions(a + [x, y] + b) + (if y > x then 1 else 0) == Inversions(a + [y, x] + b) + (if x > y then 1 else 0)
  {
    if a == [] {
      assert a + [x, y] + b == [x] + ([y] + b);
      assert a + [y, x] + b == [y] + ([x] + b);
      assert ([y] + b)[1..] == b && ([x] + b)[1..] == b;
    } else {
      var a' := a[1..];
      assert (a + [x, y] + b)[1..] == a' + [x, y] + b;
      assert (a + [y, x] + b)[1..] == a' + [y, x] + b;
      CountBelowConcat(a[0], a' + [x, y], b);
      CountBelowConcat(a[0], a', [x, y]);
      CountBelowConcat(a[0], a' + [y, x], b);
      CountBelowConcat(a[0], a', [y, x]);
      assert [x, y][1..] == [y] && [y, x][1..] == [x];
      InversionsSwapPair(a', x, y, b);
    }
  }

  /** Carrying a value x over a run m of other values changes the inversion count by
      |m| modulo 2: each value of m passed changes it by one. */
  lemma {:induction false} InversionsShift(p: seq<int>, x: int, m: seq<int>, q: seq<int>)
    requires x !in m
    ensures (Inversions(p + [x] + m + q) + |m|) % 2 == Inversions(p + m + [x] + q) % 2
    decreases |m|
  {
    if m == [] {
      assert p + [x] + m + q == p + m + [x] + q;
    } else {
      var y, m' := m[0], m[1..];
      assert p + [x] + m + q == p + [x, y] + (m' + q);
      assert p + [y, x] + (m' + q) == (p + [y]) + [x] + m' + q;
      assert (p + [y]) + m' + [x] + q == p + m + [x] + q;
      InversionsSwapPair(p, x, y, m' + q);
      InversionsShift(p + [y], x, m', q);
    }
  }

  lemma {:induction false} TileValuesNoBlank(u: Board)
    requires Blank !in u
    ensures |TileValues(u)| == |u|
  {
    if u != [] {
      assert u[0] in u;
      TileValuesNoBlank(u[1..]);
    }
  }

  /** The values read are those of the tiles on the board. */
  lemma {:induction false} TileValuesHold(u: Board, v: int)
    ensures v in TileValues(u) <==> Tile(v) in u
  {
    if u != [] {
      TileValuesHold(u[1..], v);
      assert u == [u[0]] + u[1..];
    }
  }
}
