/** Paths as the searches return them: the states after each move, the start
    excluded, each one a neighbor of the state before it. */
module Paths {
  import opened Tiles
  import opened Neighborhood

  /** One move: t is a neighbor of s. */
  predicate Step(s: Board, t: Board, size: nat)
  {
    Shape(s, size) && t in Neighbors(s, size)
  }

  /** The state the k-th move starts from. */
  function Before(start: Board, p: seq<Board>, k: nat): Board
    requires k < |p|
  {
    if k == 0 then start else p[k - 1]
  }

  predicate IsPath(start: Board, p: seq<Board>, size: nat)
  {
    forall k {:trigger Step(Before(start, p, k), p[k], size)} :: 0 <= k < |p| ==> Step(Before(start, p, k), p[k], size)
  }

  /** Where a path leaves the board: its last state, or the start when it is empty. */
  function End(start: Board, p: seq<Board>): Board
  {
    if |p| == 0 then start else p[|p| - 1]
  }

  ghost predicate Reachable(start: Board, goal: Board, size: nat)
  {
    exists p :: IsPath(start, p, size) && End(start, p) == goal
  }

  /** A set from which no move leads out and which does not hold the goal. */
  ghost predicate Sealed(e: set<Board>, goal: Board, size: nat)
  {
    forall s :: s in e ==> s != goal && Shape(s, size) && forall t :: t in Neighbors(s, size) ==> t in e
  }

  lemma PathExtend(start: Board, p: seq<Board>, t: Board, size: nat)
    requires IsPath(start, p, size) && Step(End(start, p), t, size)
    ensures IsPath(start, p + [t], size) && End(start, p + [t]) == t
  {
    var q := p + [t];
    forall k | 0 <= k < |q| ensures Step(Before(start, q, k), q[k], size) {
      if k < |p| {
        assert Before(start, q, k) == Before(start, p, k) && q[k] == p[k];
      } else if k == 0 {
        assert Before(start, q, k) == start == End(start, p) && q[k] == t;
      } else {
        assert Before(start, q, k) == p[k - 1] == End(start, p) && q[k] == t;
      }
    }
  }

  lemma PathPrefix(start: Board, p: seq<Board>, m: nat, size: nat)
    requires IsPath(start, p, size) && m <= |p|
    ensures IsPath(start, p[..m], size)
  {
    forall k | 0 <= k < m ensures Step(Before(start, p[..m], k), p[..m][k], size) {
      assert Before(start, p[..m], k) == Before(start, p, k);
    }
  }

  /** The last move of a path starts where the path one shorter ends. */
  lemma LastStep(start: Board, p: seq<Board>, size: nat)
    requires IsPath(start, p, size) && p != []
    ensures IsPath(start, p[..|p| - 1], size)
    ensures Step(End(start, p[..|p| - 1]), End(start, p), size)
  {
    PathPrefix(start, p, |p| - 1, size);
    assert Before(start, p, |p| - 1) == End(start, p[..|p| - 1]);
  }

  /** A path that starts in a sealed set never leaves it, so never reaches the goal. */
  lemma {:induction false} PathStaysInside(start: Board, p: seq<Board>, goal: Board, size: nat, e: set<Board>)
    requires start in e && Sealed(e, goal, size) && IsPath(start, p, size)
    ensures End(start, p) in e
    decreases |p|
  {
    if p != [] {
      LastStep(start, p, size);
      PathStaysInside(start, p[..|p| - 1], goal, size, e);
    }
  }

  lemma SealedCutsOffGoal(start: Board, goal: Board, size: nat, e: set<Board>)
    requires start in e && Sealed(e, goal, size)
    ensures !Reachable(start, goal, size)
  {
    forall p | IsPath(start, p, size) ensures End(start, p) != goal {
      PathStaysInside(start, p, goal, size, e);
    }
  }
}
