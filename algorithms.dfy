/** The three searches of puzzle/algorithms.py. Each runs a loop over a frontier (a
    FIFO queue, a LIFO stack, a priority queue, all held as sequences) and an explored
    set, from `initialState` until it pops `goalState` or the frontier runs dry. */
module Algorithms {
  import opened Tiles
  import opened Neighborhood
  import opened Paths
  import opened Frontier
  import opened Heuristic
  import opened SearchInvariants

  /** `bfs_search`: the returned path leads from the start to the goal move by move,
      is as short as any such path, and is missing only when no path reaches the goal.
      `enqueued` records every state put into the queue: none twice. */
  method BfsSearch(initialState: Board, goalState: Board, size: nat)
    returns (result: Option<seq<Board>>, ghost enqueued: seq<Board>)
    requires Shape(initialState, size)
    ensures initialState == goalState ==> result == Some([])
    ensures result.Some? ==> IsPath(initialState, result.value, size) && End(initialState, result.value) == goalState
    ensures result.Some? ==> Shortest(initialState, size, goalState, |result.value|)
    ensures result.None? <==> !Reachable(initialState, goalState, size)
    ensures |enqueued| >= 1 && enqueued[0] == initialState && Distinct(enqueued)
    ensures forall k :: 0 <= k < |enqueued| ==> Reachable(initialState, enqueued[k], size)
    ensures result.Some? ==> goalState in enqueued
    ensures result.None? ==> forall t :: Reachable(initialState, t, size) ==> t in enqueued
  {
    var frontier: seq<Entry<()>> := [Entry((), initialState, [])];
    var explored: set<Board> := {};
    ghost var expanded: set<Board> := {};
    enqueued := [initialState];
    ghost var level: nat := 0;
    MarkingInit(initialState, goalState, size, ());
    LayeredInit(initialState, size, ());
    assert [Entry((), initialState, [])][0].path == [];
    while frontier != []
      invariant BfsInvariant(initialState, goalState, size, frontier, explored, expanded, enqueued, level)
      decreases Universe(initialState) - explored, |frontier|
    {
      ghost var f0, e0 := frontier, explored;
      var state, path := frontier[0].state, frontier[0].path;
      assert SoundEntry(initialState, size, f0[0]);
      frontier := frontier[1..];
      if state == goalState {
        result := Some(path);
        MarkingFound(initialState, goalState, size, f0, 0, e0, expanded, enqueued);
        assert Shortest(initialState, size, f0[0].state, |f0[0].path|);
        return;
      }
      explored := explored + {state};
      var neighbors := FindNeighborsStatic(state, size);
      ghost var pushed;
      frontier, explored, pushed := PushUnmarked(frontier, explored, path, neighbors);
      BfsAdvance(initialState, goalState, size, f0, e0, expanded, enqueued, level, pushed);
      expanded := expanded + {state};
      enqueued := enqueued + NewStates(neighbors, e0 + {state});
      level := NextLevel(frontier, level);
    }
    result := None;
    MarkingExhausted(initialState, goalState, size, frontier, explored, expanded, enqueued);
  }

  ghost predicate BfsInvariant(initial: Board, goal: Board, size: nat, f: seq<Entry<()>>, explored: set<Board>,
                               expanded: set<Board>, enqueued: seq<Board>, level: nat)
  {
    Marking(initial, goal, size, f, explored, expanded, enqueued) && Layered(initial, size, f, explored, level)
  }

  /** One turn of the breadth-first loop keeps its invariant and makes progress. */
  lemma BfsAdvance(initial: Board, goal: Board, size: nat, f: seq<Entry<()>>, explored: set<Board>,
                   expanded: set<Board>, enqueued: seq<Board>, level: nat, pushed: seq<Entry<()>>)
    requires BfsInvariant(initial, goal, size, f, explored, expanded, enqueued, level)
    requires Expansion(size, f, 0, explored, pushed) && f[0].state != goal
    ensures var f' := f[1..] + pushed; var e' := Marked(size, f, 0, explored);
      && BfsInvariant(initial, goal, size, f', e', expanded + {f[0].state},
                      enqueued + Added(size, f, 0, explored), NextLevel(f', level))
      && (Universe(initial) - e' < Universe(initial) - explored || (e' == explored && |f'| < |f|))
  {
    assert Remove(f, 0) == f[1..];
    MarkingStep(initial, goal, size, f, 0, explored, expanded, enqueued, pushed);
    LayeredStep(initial, goal, size, f, explored, expanded, enqueued, level, pushed);
    MarkingProgress(initial, goal, size, f, 0, explored, expanded, enqueued, pushed);
  }

  /** The inner loop of `bfs_search` and `dfs_search`: push each neighbor not yet
      explored, with the path extended by it, and mark it explored. */
  method PushUnmarked(frontier: seq<Entry<()>>, explored: set<Board>, path: seq<Board>, neighbors: seq<Board>)
    returns (frontier': seq<Entry<()>>, explored': set<Board>, ghost pushed: seq<Entry<()>>)
    ensures frontier' == frontier + pushed
    ensures explored' == explored + Elems(neighbors)
    ensures PushedFrom(pushed, path, NewStates(neighbors, explored))
  {
    frontier', explored', pushed := frontier, explored, [];
    var k := 0;
    while k < |neighbors|
      invariant 0 <= k <= |neighbors|
      invariant frontier' == frontier + pushed
      invariant explored' == explored + Elems(neighbors[..k])
      invariant PushedFrom(pushed, path, NewStates(neighbors[..k], explored))
    {
      var neighbor := neighbors[k];
      assert neighbors[..k + 1][..k] == neighbors[..k];
      if neighbor !in explored' {
        frontier' := frontier' + [Entry((), neighbor, path + [neighbor])];
        pushed := pushed + [Entry((), neighbor, path + [neighbor])];
        explored' := explored' + {neighbor};
      }
      k := k + 1;
    }
    assert neighbors[..k] == neighbors;
  }

  /** `dfs_search`: the same loop with a LIFO stack. The returned path leads from the
      start to the goal move by move and is missing only when no path reaches it. */
  method DfsSearch(initialState: Board, goalState: Board, size: nat)
    returns (result: Option<seq<Board>>, ghost enqueued: seq<Board>)
    requires Shape(initialState, size)
    ensures initialState == goalState ==> result == Some([])
    ensures result.Some? ==> IsPath(initialState, result.value, size) && End(initialState, result.value) == goalState
    ensures result.None? <==> !Reachable(initialState, goalState, size)
    ensures |enqueued| >= 1 && enqueued[0] == initialState && Distinct(enqueued)
    ensures forall k :: 0 <= k < |enqueued| ==> Reachable(initialState, enqueued[k], size)
    ensures result.Some? ==> goalState in enqueued
    ensures result.None? ==> forall t :: Reachable(initialState, t, size) ==> t in enqueued
  {
    var frontier: seq<Entry<()>> := [Entry((), initialState, [])];
    var explored: set<Board> := {};
    ghost var expanded: set<Board> := {};
    enqueued := [initialState];
    MarkingInit(initialState, goalState, size, ());
    while frontier != []
      invariant DfsInvariant(initialState, goalState, size, frontier, explored, expanded, enqueued)
      decreases Universe(initialState) - explored, |frontier|
    {
      ghost var f0, e0 := frontier, explored;
      var top := |frontier| - 1;
      var state, path := frontier[top].state, frontier[top].path;
      assert SoundEntry(initialState, size, f0[top]);
      frontier := frontier[..top];
      if state == goalState {
        result := Some(path);
        MarkingFound(initialState, goalState, size, f0, top, e0, expanded, enqueued);
        return;
      }
      explored := explored + {state};
      var neighbors := FindNeighborsStatic(state, size);
      ghost var pushed;
      frontier, explored, pushed := PushUnmarked(frontier, explored, path, neighbors);
      DfsAdvance(initialState, goalState, size, f0, e0, expanded, enqueued, pushed);
      expanded := expanded + {state};
      enqueued := enqueued + NewStates(neighbors, e0 + {state});
    }
    result := None;
    MarkingExhausted(initialState, goalState, size, frontier, explored, expanded, enqueued);
  }

  /** The depth-first loop's invariant is the marking invariant; the name keeps it one
      proof obligation per loop turn. */
  ghost predicate DfsInvariant(initial: Board, goal: Board, size: nat, f: seq<Entry<()>>, explored: set<Board>,
                               expanded: set<Board>, enqueued: seq<Board>)
  {
    Marking(initial, goal, size, f, explored, expanded, enqueued)
  }

  /** One turn of the depth-first loop keeps its invariant and makes progress. */
  lemma DfsAdvance(initial: Board, goal: Board, size: nat, f: seq<Entry<()>>, explored: set<Board>,
                   expanded: set<Board>, enqueued: seq<Board>, pushed: seq<Entry<()>>)
    requires DfsInvariant(initial, goal, size, f, explored, expanded, enqueued)
    requires f != [] && Expansion(size, f, |f| - 1, explored, pushed) && f[|f| - 1].state != goal
    ensures var f' := f[..|f| - 1] + pushed; var e' := Marked(size, f, |f| - 1, explored);
      && DfsInvariant(initial, goal, size, f', e', expanded + {f[|f| - 1].state},
                      enqueued + Added(size, f, |f| - 1, explored))
      && (Universe(initial) - e' < Universe(initial) - explored || (e' == explored && |f'| < |f|))
  {
    assert Remove(f, |f| - 1) == f[..|f| - 1];
    MarkingStep(initial, goal, size, f, |f| - 1, explored, expanded, enqueued, pushed);
    MarkingProgress(initial, goal, size, f, |f| - 1, explored, expanded, enqueued, pushed);
  }

  function Priority(c: Cost): int
  {
    c.priority
  }

  /** `a_star_search`: pops an entry of least priority (ties are left open), marks a
      state explored only when it pops it, and returns the popped path with the goal
      appended once more. What precedes that last goal is a path from the start to
      the goal, so the goal appears twice at the end unless the start is the goal. */
  method AStarSearch(initialState: Board, goalState: Board, size: nat) returns (result: Option<seq<Board>>)
    requires Shape(initialState, size)
    ensures AStarResult(initialState, goalState, size, result)
  {
    var h := ManhattanDistance(initialState, size);
    var frontier: seq<Entry<Cost>> := [Entry(Cost(h, 0), initialState, [])];
    var explored: set<Board> := {};
    PricedInit(initialState, goalState, size);
    while frontier != []
      invariant Priced(initialState, goalState, size, frontier, explored)
      decreases Universe(initialState) - explored, Stale(frontier, explored)
    {
      LeastExists(frontier, Priority);
      var i :| 0 <= i < |frontier| && Least(frontier, i, Priority);
      ghost var f0, e0 := frontier, explored;
      var costSoFar, state, path := frontier[i].key.cost, frontier[i].state, frontier[i].path;
      AStarPopped(initialState, goalState, size, f0, i, e0);
      frontier := frontier[..i] + frontier[i + 1..];
      if state == goalState {
        var answer := path + [goalState];
        AStarFound(initialState, goalState, size, f0, i, e0, answer);
        result := Some(answer);
        return;
      }
      explored := explored + {state};
      var neighbors := FindNeighborsStatic(state, size);
      ghost var pushed;
      frontier, pushed := PushPriced(frontier, explored, costSoFar, path, neighbors, size);
      AStarAdvance(initialState, goalState, size, f0, i, e0, pushed);
    }
    result := None;
    AStarExhausted(initialState, goalState, size, frontier, explored);
  }

  /** What `a_star_search` promises: [goal] when the start is the goal; otherwise a
      path to the goal with the goal appended, when one exists, and nothing when
      none does. */
  ghost predicate AStarResult(initial: Board, goal: Board, size: nat, result: Option<seq<Board>>)
  {
    && (initial == goal ==> result == Some([goal]))
    && (result.Some? ==> AStarAnswer(initial, goal, size, result.value))
    && (result.None? <==> !Reachable(initial, goal, size))
  }

  /** An empty frontier: the goal is out of reach. */
  lemma AStarExhausted(initial: Board, goal: Board, size: nat, f: seq<Entry<Cost>>, explored: set<Board>)
    requires Priced(initial, goal, size, f, explored) && f == []
    ensures AStarResult(initial, goal, size, None)
  {
    PricedExhausted(initial, goal, size, f, explored);
  }

  /** The popped entry holds a board, whose cost is the length of its path. */
  lemma AStarPopped(initial: Board, goal: Board, size: nat, f: seq<Entry<Cost>>, i: nat, explored: set<Board>)
    requires Priced(initial, goal, size, f, explored) && i < |f|
    ensures Shape(f[i].state, size) && f[i].key.cost == |f[i].path|
  {
    assert SoundEntry(initial, size, f[i]) && WellPriced(f[i], size);
  }

  /** What `a_star_search` returns: a path from the start to the goal followed by the
      goal once more, so just [goal] when the start is the goal and otherwise a list
      whose last two states are both the goal. */
  ghost predicate AStarAnswer(initial: Board, goal: Board, size: nat, r: seq<Board>)
  {
    && |r| >= 1 && r[|r| - 1] == goal
    && IsPath(initial, r[..|r| - 1], size) && End(initial, r[..|r| - 1]) == goal
    && (initial == goal ==> r == [goal])
    && (initial != goal ==> |r| >= 2 && r[|r| - 2] == goal)
  }

  /** What popping the goal returns: the popped path with the goal appended. */
  lemma AStarFound(initial: Board, goal: Board, size: nat, f: seq<Entry<Cost>>, i: nat, explored: set<Board>,
                   r: seq<Board>)
    requires Priced(initial, goal, size, f, explored)
    requires i < |f| && f[i].state == goal && r == f[i].path + [goal]
    ensures AStarResult(initial, goal, size, Some(r))
  {
    PricedFound(initial, goal, size, f, i, explored);
    var path := f[i].path;
    assert (path + [goal])[..|path|] == path;
  }

  /** One turn of the A* loop keeps its invariant and makes progress. */
  lemma AStarAdvance(initial: Board, goal: Board, size: nat, f: seq<Entry<Cost>>, i: nat,
                     explored: set<Board>, pushed: seq<Entry<Cost>>)
    requires Priced(initial, goal, size, f, explored)
    requires i < |f| && Shape(f[i].state, size) && f[i].state != goal
    requires PushedFrom(pushed, f[i].path, Unexplored(Neighbors(f[i].state, size), explored + {f[i].state}))
    requires forall m :: 0 <= m < |pushed| ==>
      pushed[m].key == Cost(f[i].key.cost + 1 + Manhattan(pushed[m].state, size), f[i].key.cost + 1)
    ensures var f' := f[..i] + f[i + 1..] + pushed; var e' := explored + {f[i].state};
      && Priced(initial, goal, size, f', e')
      && (Universe(initial) - e' < Universe(initial) - explored || (e' == explored && Stale(f', e') < Stale(f, explored)))
  {
    assert WellPriced(f[i], size);
    assert PricedExpansion(size, f, i, explored, pushed);
    PricedStep(initial, goal, size, f, i, explored, pushed);
    PricedProgress(initial, goal, size, f, i, explored, pushed);
  }

  /** The inner loop of `a_star_search`: push each neighbor not explored, with cost
      one more than the popped entry's and cost plus heuristic as priority; nothing
      is marked. */
  method PushPriced(frontier: seq<Entry<Cost>>, explored: set<Board>, costSoFar: nat, path: seq<Board>,
                    neighbors: seq<Board>, size: nat)
    returns (frontier': seq<Entry<Cost>>, ghost pushed: seq<Entry<Cost>>)
    requires size > 0
    ensures frontier' == frontier + pushed
    ensures PushedFrom(pushed, path, Unexplored(neighbors, explored))
    ensures forall m :: 0 <= m < |pushed| ==>
      pushed[m].key == Cost(costSoFar + 1 + Manhattan(pushed[m].state, size), costSoFar + 1)
  {
    frontier', pushed := frontier, [];
    var k := 0;
    while k < |neighbors|
      invariant 0 <= k <= |neighbors|
      invariant frontier' == frontier + pushed
      invariant PushedFrom(pushed, path, Unexplored(neighbors[..k], explored))
      invariant forall m :: 0 <= m < |pushed| ==>
        pushed[m].key == Cost(costSoFar + 1 + Manhattan(pushed[m].state, size), costSoFar + 1)
    {
      var neighbor := neighbors[k];
      assert neighbors[..k + 1][..k] == neighbors[..k];
      if neighbor !in explored {
        var newCost := costSoFar + 1;
        var distance := ManhattanDistance(neighbor, size);
        var priority := newCost + distance;
        frontier' := frontier' + [Entry(Cost(priority, newCost), neighbor, path + [neighbor])];
        pushed := pushed + [Entry(Cost(priority, newCost), neighbor, path + [neighbor])];
      }
      k := k + 1;
    }
    assert neighbors[..k] == neighbors;
  }
}
