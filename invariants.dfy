/** The loop invariants of the searches and the lemmas that carry them across one
    expansion: pop an entry, mark it explored, push its neighbors. */
module SearchInvariants {
  import opened Tiles
  import opened Neighborhood
  import opened Paths
  import opened Frontier
  import opened Heuristic

  /** Every expanded state is not the goal and has all its neighbors explored. */
  ghost predicate Closed(expanded: set<Board>, explored: set<Board>, goal: Board, size: nat)
  {
    forall s :: s in expanded ==>
      s != goal && Shape(s, size) && forall t :: t in Neighbors(s, size) ==> t in explored
  }

  /** The pushed entries: one per state of `added`, in order, each with the popped
      path extended by that state. */
  ghost predicate PushedFrom<K>(pushed: seq<Entry<K>>, path: seq<Board>, added: seq<Board>)
  {
    |pushed| == |added| &&
    forall m :: 0 <= m < |pushed| ==> pushed[m].state == added[m] && pushed[m].path == path + [added[m]]
  }

  /** The invariant of a search that marks states explored when it pushes them (the
      source's BFS and DFS, and the greedy search of src/main.py). `expanded` holds
      the popped states and `enqueued` every state ever pushed, in order. */
  ghost predicate Marking<K>(initial: Board, goal: Board, size: nat, f: seq<Entry<K>>,
                             explored: set<Board>, expanded: set<Board>, enqueued: seq<Board>)
  {
    && Sound(initial, size, f)
    && (forall s :: s in explored ==> Over(s, initial))
    && Closed(expanded, explored, goal, size)
    && explored <= expanded + States(f)
    && expanded <= explored
    && (initial !in explored ==> |f| == 1 && f[0].state == initial && f[0].path == [])
    && (initial in explored ==> initial in expanded)
    && (forall s :: s in expanded ==> Reachable(initial, s, size))
    && Traced(initial, f, explored, enqueued)
  }

  /** The trace of pushes: the start, then states marked explored, none twice; every
      queued and every explored state was pushed. */
  ghost predicate Traced<K>(initial: Board, f: seq<Entry<K>>, explored: set<Board>, enqueued: seq<Board>)
  {
    && |enqueued| >= 1 && enqueued[0] == initial
    && (forall k :: 1 <= k < |enqueued| ==> enqueued[k] in explored)
    && Distinct(enqueued)
    && States(f) <= Elems(enqueued)
    && explored <= Elems(enqueued)
  }

  /** Every queued state other than the start is explored: a state is marked when it
      is pushed. */
  lemma QueuedMarked<K>(initial: Board, goal: Board, size: nat, f: seq<Entry<K>>,
                        explored: set<Board>, expanded: set<Board>, enqueued: seq<Board>)
    requires Marking(initial, goal, size, f, explored, expanded, enqueued)
    ensures States(f) <= explored + {initial}
  {
    forall s | s in States(f) ensures s in explored + {initial} {
      var k :| 0 <= k < |enqueued| && enqueued[k] == s;
    }
  }

  /** Every pushed state is reachable from the start. */
  lemma TraceReachable<K>(initial: Board, goal: Board, size: nat, f: seq<Entry<K>>,
                          explored: set<Board>, expanded: set<Board>, enqueued: seq<Board>)
    requires Marking(initial, goal, size, f, explored, expanded, enqueued)
    ensures forall k :: 0 <= k < |enqueued| ==> Reachable(initial, enqueued[k], size)
  {
    assert IsPath(initial, [], size) && End(initial, []) == initial;
    forall k | 0 <= k < |enqueued| ensures Reachable(initial, enqueued[k], size) {
      var s := enqueued[k];
      if k > 0 && s !in expanded {
        var m :| 0 <= m < |f| && f[m].state == s;
        assert SoundEntry(initial, size, f[m]);
        assert IsPath(initial, f[m].path, size) && End(initial, f[m].path) == s;
      }
    }
  }

  lemma MarkingInit<K>(initial: Board, goal: Board, size: nat, k: K)
    requires Shape(initial, size)
    ensures Marking(initial, goal, size, [Entry(k, initial, [])], {}, {}, [initial])
  {
    assert SoundEntry(initial, size, Entry(k, initial, []));
  }

  /** Entry i of the frontier is expanded: a board, whose unmarked neighbors are
      pushed, in order, each with the popped path extended by it. */
  ghost predicate Expansion<K>(size: nat, f: seq<Entry<K>>, i: nat, explored: set<Board>, pushed: seq<Entry<K>>)
  {
    i < |f| && Shape(f[i].state, size) &&
    PushedFrom(pushed, f[i].path, NewStates(Neighbors(f[i].state, size), explored + {f[i].state}))
  }

  /** The explored set after expanding entry i. */
  ghost function Marked<K>(size: nat, f: seq<Entry<K>>, i: nat, explored: set<Board>): set<Board>
    requires i < |f| && Shape(f[i].state, size)
  {
    explored + {f[i].state} + Elems(Neighbors(f[i].state, size))
  }

  /** The states pushed when expanding entry i. */
  ghost function Added<K>(size: nat, f: seq<Entry<K>>, i: nat, explored: set<Board>): seq<Board>
    requires i < |f| && Shape(f[i].state, size)
  {
    NewStates(Neighbors(f[i].state, size), explored + {f[i].state})
  }

  /** The start lies in the explored set once the first entry has been popped. */
  lemma InitialMarked<K>(initial: Board, f: seq<Entry<K>>, i: nat, explored: set<Board>, expanded: set<Board>)
    requires i < |f| && (initial !in explored ==> |f| == 1 && f[0].state == initial)
    requires initial in explored ==> initial in expanded
    ensures initial in explored + {f[i].state} && initial in expanded + {f[i].state}
  {
  }

  /** A popped goal entry holds a path to the goal, and the empty one when the start is
      the goal. */
  lemma MarkingFound<K>(initial: Board, goal: Board, size: nat, f: seq<Entry<K>>, i: nat,
                        explored: set<Board>, expanded: set<Board>, enqueued: seq<Board>)
    requires Marking(initial, goal, size, f, explored, expanded, enqueued)
    requires i < |f| && f[i].state == goal
    ensures IsPath(initial, f[i].path, size) && End(initial, f[i].path) == goal
    ensures Reachable(initial, goal, size)
    ensures initial == goal ==> f[i].path == []
    ensures |enqueued| >= 1 && enqueued[0] == initial && Distinct(enqueued) && goal in enqueued
    ensures forall k :: 0 <= k < |enqueued| ==> Reachable(initial, enqueued[k], size)
  {
    assert SoundEntry(initial, size, f[i]);
    assert f[i].state in States(f);
    TraceReachable(initial, goal, size, f, explored, expanded, enqueued);
  }

  /** An empty frontier leaves the explored states sealed around the start. */
  lemma MarkingExhausted<K>(initial: Board, goal: Board, size: nat, f: seq<Entry<K>>,
                            explored: set<Board>, expanded: set<Board>, enqueued: seq<Board>)
    requires Marking(initial, goal, size, f, explored, expanded, enqueued) && f == []
    ensures !Reachable(initial, goal, size) && initial != goal
    ensures |enqueued| >= 1 && enqueued[0] == initial && Distinct(enqueued)
    ensures forall k :: 0 <= k < |enqueued| ==> Reachable(initial, enqueued[k], size)
    ensures forall t :: Reachable(initial, t, size) ==> t in enqueued
  {
    SealedCutsOffGoal(initial, goal, size, expanded);
    TraceReachable(initial, goal, size, f, explored, expanded, enqueued);
    forall t | Reachable(initial, t, size) ensures t in enqueued {
      var p :| IsPath(initial, p, size) && End(initial, p) == t;
      PathStaysInside(initial, p, goal, size, expanded);
      assert t in Elems(enqueued);
    }
  }

  /** Popping entry i (not the goal), marking it and pushing its unmarked neighbors
      keeps the invariant. */
  lemma MarkingStep<K>(initial: Board, goal: Board, size: nat, f: seq<Entry<K>>, i: nat,
                       explored: set<Board>, expanded: set<Board>, enqueued: seq<Board>,
                       pushed: seq<Entry<K>>)
    requires Marking(initial, goal, size, f, explored, expanded, enqueued)
    requires Expansion(size, f, i, explored, pushed) && f[i].state != goal
    ensures Marking(initial, goal, size, Remove(f, i) + pushed, Marked(size, f, i, explored),
                    expanded + {f[i].state}, enqueued + Added(size, f, i, explored))
  {
    StepSound(initial, size, f, i, explored, pushed);
    StepOver(initial, size, f, i, explored, pushed);
    StepClosed(goal, size, f, i, explored, expanded, pushed);
    StepCovered(size, f, i, explored, expanded, pushed);
    InitialMarked(initial, f, i, explored, expanded);
    StepEnqueued(initial, size, f, i, explored, enqueued, pushed);
    StepTraced(initial, size, f, i, explored, enqueued, pushed);
    StepReachable(initial, size, f, i, expanded);
  }

  /** The popped state is reachable, so the expanded states stay reachable. */
  lemma StepReachable<K>(initial: Board, size: nat, f: seq<Entry<K>>, i: nat, expanded: set<Board>)
    requires Sound(initial, size, f) && i < |f|
    requires forall s :: s in expanded ==> Reachable(initial, s, size)
    ensures forall s :: s in expanded + {f[i].state} ==> Reachable(initial, s, size)
  {
    assert SoundEntry(initial, size, f[i]);
    assert IsPath(initial, f[i].path, size) && End(initial, f[i].path) == f[i].state;
  }

  /** The queued and the explored states after the step were all pushed. */
  lemma StepTraced<K>(initial: Board, size: nat, f: seq<Entry<K>>, i: nat, explored: set<Board>,
                      enqueued: seq<Board>, pushed: seq<Entry<K>>)
    requires Expansion(size, f, i, explored, pushed)
    requires States(f) <= Elems(enqueued) && explored <= Elems(enqueued)
    ensures var q' := enqueued + Added(size, f, i, explored);
      && States(Remove(f, i) + pushed) <= Elems(q')
      && Marked(size, f, i, explored) <= Elems(q')
  {
    var s := f[i].state;
    var added := Added(size, f, i, explored);
    var q' := enqueued + added;
    var f' := Remove(f, i) + pushed;
    NewStatesFacts(Neighbors(s, size), explored + {s});
    assert s in States(f);
    forall x | x in States(f') ensures x in Elems(q') {
      var m :| 0 <= m < |f'| && f'[m].state == x;
      if m < |f| - 1 {
        var n := if m < i then m else m + 1;
        assert f'[m] == f[n];
        assert x in States(f);
      } else {
        assert x == added[m - (|f| - 1)];
        assert q'[|enqueued| + m - (|f| - 1)] == x;
      }
    }
    forall x | x in Marked(size, f, i, explored) ensures x in Elems(q') {
      if x in added {
        var m :| 0 <= m < |added| && added[m] == x;
        assert q'[|enqueued| + m] == x;
      }
    }
  }

  /** The entries left and the entries pushed are all sound. */
  lemma StepSound<K>(initial: Board, size: nat, f: seq<Entry<K>>, i: nat, explored: set<Board>,
                     pushed: seq<Entry<K>>)
    requires Sound(initial, size, f) && Expansion(size, f, i, explored, pushed)
    ensures Sound(initial, size, Remove(f, i) + pushed)
  {
    NewStatesFacts(Neighbors(f[i].state, size), explored + {f[i].state});
    SoundAfter(initial, size, f, i, pushed, Added(size, f, i, explored));
  }

  lemma SoundAfter<K>(initial: Board, size: nat, f: seq<Entry<K>>, i: nat,
                      pushed: seq<Entry<K>>, added: seq<Board>)
    requires Sound(initial, size, f) && i < |f| && Shape(f[i].state, size)
    requires forall t :: t in added ==> t in Neighbors(f[i].state, size)
    requires PushedFrom(pushed, f[i].path, added)
    ensures Sound(initial, size, Remove(f, i) + pushed)
  {
    var f' := Remove(f, i) + pushed;
    assert SoundEntry(initial, size, f[i]);
    forall k | 0 <= k < |f'| ensures SoundEntry(initial, size, f'[k]) {
      if k >= |f| - 1 {
        var m := k - (|f| - 1);
        assert added[m] in added;
        ExtendSound(initial, size, f[i], added[m], pushed[m].key);
        assert f'[k] == Entry(pushed[m].key, added[m], f[i].path + [added[m]]);
      } else {
        assert f'[k] == if k < i then f[k] else f[k + 1];
      }
    }
  }

  lemma StepOver<K>(initial: Board, size: nat, f: seq<Entry<K>>, i: nat, explored: set<Board>,
                    pushed: seq<Entry<K>>)
    requires Sound(initial, size, f) && Expansion(size, f, i, explored, pushed)
    requires forall x :: x in explored ==> Over(x, initial)
    ensures forall x :: x in Marked(size, f, i, explored) ==> Over(x, initial)
  {
    assert SoundEntry(initial, size, f[i]);
    NeighborsOver(f[i].state, size, initial);
  }

  /** The popped state joins the expanded ones, its neighbors the explored ones. */
  lemma StepClosed<K>(goal: Board, size: nat, f: seq<Entry<K>>, i: nat, explored: set<Board>,
                      expanded: set<Board>, pushed: seq<Entry<K>>)
    requires Closed(expanded, explored, goal, size) && Expansion(size, f, i, explored, pushed)
    requires f[i].state != goal
    ensures Closed(expanded + {f[i].state}, Marked(size, f, i, explored), goal, size)
  {
  }

  /** Whatever is explored after the step was expanded or is still in the frontier. */
  lemma StepCovered<K>(size: nat, f: seq<Entry<K>>, i: nat, explored: set<Board>,
                       expanded: set<Board>, pushed: seq<Entry<K>>)
    requires explored <= expanded + States(f) && Expansion(size, f, i, explored, pushed)
    ensures Marked(size, f, i, explored) <= expanded + {f[i].state} + States(Remove(f, i) + pushed)
  {
    var s := f[i].state;
    var f' := Remove(f, i) + pushed;
    var added := Added(size, f, i, explored);
    NewStatesFacts(Neighbors(s, size), explored + {s});
    forall x | x in Marked(size, f, i, explored) ensures x in expanded + {s} || x in States(f') {
      if x in explored && x !in expanded && x != s {
        var m :| 0 <= m < |f| && f[m].state == x;
        if m < i {
          assert f'[m] == f[m];
        } else {
          assert f'[m - 1] == f[m];
        }
      } else if x !in explored + {s} {
        assert x in added;
        var m :| 0 <= m < |added| && added[m] == x;
        assert f'[|f| - 1 + m].state == x;
      }
    }
  }

  /** The pushed states are new: the trace of pushes stays free of repeats. */
  lemma StepEnqueued<K>(initial: Board, size: nat, f: seq<Entry<K>>, i: nat, explored: set<Board>,
                        enqueued: seq<Board>, pushed: seq<Entry<K>>)
    requires Expansion(size, f, i, explored, pushed)
    requires |enqueued| >= 1 && enqueued[0] == initial && initial in explored + {f[i].state}
    requires forall k :: 1 <= k < |enqueued| ==> enqueued[k] in explored
    requires Distinct(enqueued)
    ensures var q' := enqueued + Added(size, f, i, explored);
      && (forall k :: 1 <= k < |q'| ==> q'[k] in Marked(size, f, i, explored))
      && Distinct(q')
  {
    var e1 := explored + {f[i].state};
    var added := Added(size, f, i, explored);
    NewStatesFacts(Neighbors(f[i].state, size), e1);
    var q' := enqueued + added;
    forall a, b | 0 <= a < b < |q'| ensures q'[a] != q'[b] {
      if a < |enqueued| <= b {
        assert q'[a] in e1;
        assert q'[b] == added[b - |enqueued|];
      }
    }
    forall k | |enqueued| <= k < |q'| ensures q'[k] in Marked(size, f, i, explored) {
      assert q'[k] == added[k - |enqueued|];
    }
  }

  /** No path from the start reaches x in fewer than n moves. */
  ghost predicate Shortest(initial: Board, size: nat, x: Board, n: nat)
  {
    forall q :: IsPath(initial, q, size) && End(initial, q) == x ==> n <= |q|
  }

  /** The breadth-first invariant: the queue holds paths of length `level` followed by
      paths of length `level + 1`, each a shortest path to its state, and every state
      reachable in at most `level` moves is explored or is the start. */
  ghost predicate Layered<K>(initial: Board, size: nat, f: seq<Entry<K>>, explored: set<Board>, level: nat)
  {
    && (f != [] ==> |f[0].path| == level)
    && (forall i :: 0 <= i < |f| ==> level <= |f[i].path| <= level + 1)
    && (forall i, j :: 0 <= i < j < |f| ==> |f[i].path| <= |f[j].path|)
    && AllShortest(initial, size, f)
    && (forall q :: IsPath(initial, q, size) && |q| <= level ==> End(initial, q) in explored + {initial})
  }

  /** The level after a step: one more once the front of the queue is one longer. */
  function NextLevel<K>(f: seq<Entry<K>>, level: nat): nat
  {
    if f != [] && |f[0].path| > level then level + 1 else level
  }

  lemma LayeredInit<K>(initial: Board, size: nat, k: K)
    ensures Layered(initial, size, [Entry(k, initial, [])], {}, 0)
  {
  }

  /** With the queue popped at its front, the breadth-first invariant survives. */
  lemma LayeredStep<K>(initial: Board, goal: Board, size: nat, f: seq<Entry<K>>,
                       explored: set<Board>, expanded: set<Board>, enqueued: seq<Board>,
                       level: nat, pushed: seq<Entry<K>>)
    requires Marking(initial, goal, size, f, explored, expanded, enqueued)
    requires Layered(initial, size, f, explored, level)
    requires Expansion(size, f, 0, explored, pushed) && f[0].state != goal
    ensures var f' := Remove(f, 0) + pushed;
            Layered(initial, size, f', Marked(size, f, 0, explored), NextLevel(f', level))
  {
    InitialMarked(initial, f, 0, explored, expanded);
    LayeredLengths(f, level, pushed);
    StepShortest(initial, size, f, explored, level, pushed);
    ReachNext(initial, goal, size, f, explored, expanded, level, pushed);
  }

  /** Every state reachable within the new level is explored after the step. */
  lemma ReachNext<K>(initial: Board, goal: Board, size: nat, f: seq<Entry<K>>,
                     explored: set<Board>, expanded: set<Board>, level: nat, pushed: seq<Entry<K>>)
    requires Expansion(size, f, 0, explored, pushed) && f[0].state != goal
    requires Closed(expanded, explored, goal, size) && explored <= expanded + States(f)
    requires |f[0].path| == level
    requires forall i :: 0 <= i < |f| ==> level <= |f[i].path| <= level + 1
    requires forall i, j :: 0 <= i < j < |f| ==> |f[i].path| <= |f[j].path|
    requires AllShortest(initial, size, f)
    requires forall q :: IsPath(initial, q, size) && |q| <= level ==> End(initial, q) in explored + {initial}
    requires initial in explored + {f[0].state}
    ensures var f' := Remove(f, 0) + pushed;
      forall q :: IsPath(initial, q, size) && |q| <= NextLevel(f', level) ==>
        End(initial, q) in Marked(size, f, 0, explored) + {initial}
  {
    var f' := Remove(f, 0) + pushed;
    var e' := Marked(size, f, 0, explored);
    assert explored <= e';
    if NextLevel(f', level) == level + 1 {
      LayeredLengths(f, level, pushed);
      StepShortest(initial, size, f, explored, level, pushed);
      StepClosed(goal, size, f, 0, explored, expanded, pushed);
      StepCovered(size, f, 0, explored, expanded, pushed);
      LevelRises(initial, goal, size, f', e', expanded + {f[0].state}, level);
    }
  }

  /** Every entry holds a shortest path to its state. */
  ghost predicate AllShortest<K>(initial: Board, size: nat, f: seq<Entry<K>>)
  {
    forall i :: 0 <= i < |f| ==> Shortest(initial, size, f[i].state, |f[i].path|)
  }

  /** Every entry after the step holds a shortest path: the ones kept did already, and
      a pushed state, unexplored, was not reachable in `level` moves. */
  lemma StepShortest<K>(initial: Board, size: nat, f: seq<Entry<K>>, explored: set<Board>,
                        level: nat, pushed: seq<Entry<K>>)
    requires Expansion(size, f, 0, explored, pushed) && |f[0].path| == level
    requires AllShortest(initial, size, f)
    requires forall q :: IsPath(initial, q, size) && |q| <= level ==> End(initial, q) in explored + {initial}
    requires initial in explored + {f[0].state}
    ensures AllShortest(initial, size, Remove(f, 0) + pushed)
  {
    AllShortestRemove(initial, size, f, 0);
    PushedShortest(initial, size, f, explored, level, pushed);
    AllShortestConcat(initial, size, Remove(f, 0), pushed);
  }

  lemma AllShortestRemove<K>(initial: Board, size: nat, f: seq<Entry<K>>, i: nat)
    requires AllShortest(initial, size, f) && i < |f|
    ensures AllShortest(initial, size, Remove(f, i))
  {
    var r := Remove(f, i);
    forall k | 0 <= k < |r| ensures Shortest(initial, size, r[k].state, |r[k].path|) {
      assert r[k] == if k < i then f[k] else f[k + 1];
    }
  }

  lemma AllShortestConcat<K>(initial: Board, size: nat, a: seq<Entry<K>>, b: seq<Entry<K>>)
    requires AllShortest(initial, size, a) && AllShortest(initial, size, b)
    ensures AllShortest(initial, size, a + b)
  {
    forall k | 0 <= k < |a + b| ensures Shortest(initial, size, (a + b)[k].state, |(a + b)[k].path|) {
      if k < |a| {
        assert (a + b)[k] == a[k];
      } else {
        assert (a + b)[k] == b[k - |a|];
      }
    }
  }

  /** The pushed states, one move further than `level` and not explored, hold
      shortest paths. */
  lemma PushedShortest<K>(initial: Board, size: nat, f: seq<Entry<K>>, explored: set<Board>,
                          level: nat, pushed: seq<Entry<K>>)
    requires Expansion(size, f, 0, explored, pushed) && |f[0].path| == level
    requires forall q :: IsPath(initial, q, size) && |q| <= level ==> End(initial, q) in explored + {initial}
    requires initial in explored + {f[0].state}
    ensures AllShortest(initial, size, pushed)
  {
    var e1 := explored + {f[0].state};
    var added := Added(size, f, 0, explored);
    NewStatesFacts(Neighbors(f[0].state, size), e1);
    forall m | 0 <= m < |pushed| ensures Shortest(initial, size, pushed[m].state, |pushed[m].path|) {
      assert added[m] in added;
      assert pushed[m].state == added[m] && |pushed[m].path| == level + 1;
      Unreached(initial, size, e1, level, added[m]);
    }
  }

  /** A state outside the explored set, when every state within `level` moves is
      inside it, takes more than `level` moves to reach. */
  lemma Unreached(initial: Board, size: nat, explored: set<Board>, level: nat, x: Board)
    requires forall q :: IsPath(initial, q, size) && |q| <= level ==> End(initial, q) in explored + {initial}
    requires initial in explored && x !in explored
    ensures Shortest(initial, size, x, level + 1)
  {
  }

  /** Once the whole queue holds paths of length level + 1, every state reachable in
      level + 1 moves is explored: its predecessor was reachable in `level` moves, is
      not in the queue, so was expanded. */
  lemma LevelRises<K>(initial: Board, goal: Board, size: nat, f: seq<Entry<K>>,
                      explored: set<Board>, expanded: set<Board>, level: nat)
    requires forall q :: IsPath(initial, q, size) && |q| <= level ==> End(initial, q) in explored + {initial}
    requires initial in explored
    requires forall i :: 0 <= i < |f| ==> |f[i].path| == level + 1
    requires AllShortest(initial, size, f)
    requires explored <= expanded + States(f)
    requires Closed(expanded, explored, goal, size)
    ensures forall q :: IsPath(initial, q, size) && |q| <= level + 1 ==> End(initial, q) in explored + {initial}
  {
    forall q | IsPath(initial, q, size) && |q| <= level + 1 ensures End(initial, q) in explored + {initial} {
      if |q| == level + 1 {
        OneLevelOn(initial, goal, size, f, explored, expanded, level, q);
      }
    }
  }

  /** A path of level + 1 moves: its last move starts at a state within `level` moves,
      which is explored and not queued, so expanded, and ends in the explored set. */
  lemma OneLevelOn<K>(initial: Board, goal: Board, size: nat, f: seq<Entry<K>>,
                      explored: set<Board>, expanded: set<Board>, level: nat, q: seq<Board>)
    requires forall q :: IsPath(initial, q, size) && |q| <= level ==> End(initial, q) in explored + {initial}
    requires initial in explored
    requires forall i :: 0 <= i < |f| ==> |f[i].path| == level + 1
    requires AllShortest(initial, size, f)
    requires explored <= expanded + States(f)
    requires Closed(expanded, explored, goal, size)
    requires IsPath(initial, q, size) && |q| == level + 1
    ensures End(initial, q) in explored
  {
    var q' := q[..|q| - 1];
    LastStep(initial, q, size);
    var y := End(initial, q');
    ShorterExplored(initial, size, explored, level, q');
    NotQueued(initial, size, f, level, q');
    ExpandedLeadsIn(y, End(initial, q), explored, expanded, goal, size, States(f));
  }

  /** A path no longer than the explored levels ends in an explored state. */
  lemma ShorterExplored(initial: Board, size: nat, explored: set<Board>, level: nat, q: seq<Board>)
    requires forall q :: IsPath(initial, q, size) && |q| <= level ==> End(initial, q) in explored + {initial}
    requires initial in explored
    requires IsPath(initial, q, size) && |q| <= level
    ensures End(initial, q) in explored
  {
  }

  /** The end of a path of `level` moves is in no entry of a queue whose paths, all
      shortest, have level + 1 moves. */
  lemma NotQueued<K>(initial: Board, size: nat, f: seq<Entry<K>>, level: nat, q: seq<Board>)
    requires forall i :: 0 <= i < |f| ==> |f[i].path| == level + 1
    requires AllShortest(initial, size, f)
    requires IsPath(initial, q, size) && |q| == level
    ensures End(initial, q) !in States(f)
  {
    if End(initial, q) in States(f) {
      assert false;
    }
  }

  /** A move out of an explored state that is not queued lands in the explored set. */
  lemma ExpandedLeadsIn(y: Board, t: Board, explored: set<Board>, expanded: set<Board>,
                        goal: Board, size: nat, queued: set<Board>)
    requires y in explored && y !in queued && explored <= expanded + queued
    requires Closed(expanded, explored, goal, size) && Step(y, t, size)
    ensures t in explored
  {
  }

  /** The path lengths of the queue after a front pop and the pushes. */
  lemma LayeredLengths<K>(f: seq<Entry<K>>, level: nat, pushed: seq<Entry<K>>)
    requires f != [] && |f[0].path| == level
    requires forall i :: 0 <= i < |f| ==> level <= |f[i].path| <= level + 1
    requires forall i, j :: 0 <= i < j < |f| ==> |f[i].path| <= |f[j].path|
    requires forall m :: 0 <= m < |pushed| ==> |pushed[m].path| == level + 1
    ensures var f' := Remove(f, 0) + pushed; var level' := NextLevel(f', level);
      && (forall i :: 0 <= i < |f'| ==> |f'[i].path| <= level + 1)
      && (f' != [] ==> |f'[0].path| == level')
      && (forall i :: 0 <= i < |f'| ==> level' <= |f'[i].path| <= level' + 1)
      && (forall i, j :: 0 <= i < j < |f'| ==> |f'[i].path| <= |f'[j].path|)
  {
    var f' := Remove(f, 0) + pushed;
    assert forall k :: 0 <= k < |f'| ==> f'[k] == if k < |f| - 1 then f[k + 1] else pushed[k - (|f| - 1)];
  }

  /** After an expansion either less of the universe is unexplored, or nothing new was
      marked and the frontier is one entry shorter. */
  lemma MarkingProgress<K>(initial: Board, goal: Board, size: nat, f: seq<Entry<K>>, i: nat,
                           explored: set<Board>, expanded: set<Board>, enqueued: seq<Board>,
                           pushed: seq<Entry<K>>)
    requires Marking(initial, goal, size, f, explored, expanded, enqueued)
    requires Expansion(size, f, i, explored, pushed)
    ensures var e' := Marked(size, f, i, explored);
      || Universe(initial) - e' < Universe(initial) - explored
      || (e' == explored && |Remove(f, i) + pushed| < |f|)
  {
    var e' := Marked(size, f, i, explored);
    StepOver(initial, size, f, i, explored, pushed);
    OverInUniverse(e', initial);
    NewStatesFacts(Neighbors(f[i].state, size), explored + {f[i].state});
    if e' != explored {
      Shrinks(Universe(initial), explored, e');
    } else {
      NoneAdded(Neighbors(f[i].state, size), explored, f[i].state);
    }
  }

  /** An expansion that marks nothing new pushes nothing. */
  lemma NoneAdded(ns: seq<Board>, explored: set<Board>, s: Board)
    ensures explored + {s} + Elems(ns) == explored ==> NewStates(ns, explored + {s}) == []
  {
    NewStatesFacts(ns, explored + {s});
    if NewStates(ns, explored + {s}) != [] {
      assert NewStates(ns, explored + {s})[0] in NewStates(ns, explored + {s});
    }
  }

  /** Every entry of the source's A* frontier carries its path length as its cost and
      cost plus heuristic as its priority. */
  predicate WellPriced(e: Entry<Cost>, size: nat)
  {
    size > 0 && e.key.cost == |e.path| && e.key.priority == e.key.cost + Manhattan(e.state, size)
  }

  /** The invariant of the source's A*, which marks a state explored only when it pops
      it: explored states are not the goal and each neighbor of one is explored or
      waiting in the frontier. */
  ghost predicate Priced(initial: Board, goal: Board, size: nat, f: seq<Entry<Cost>>, explored: set<Board>)
  {
    && Sound(initial, size, f)
    && (forall i :: 0 <= i < |f| ==> WellPriced(f[i], size))
    && (forall s :: s in explored ==> Over(s, initial))
    && Closed(explored, explored + States(f), goal, size)
    && (initial !in explored ==> |f| == 1 && f[0].state == initial && f[0].path == [])
  }

  lemma PricedInit(initial: Board, goal: Board, size: nat)
    requires Shape(initial, size)
    ensures Priced(initial, goal, size, [Entry(Cost(Manhattan(initial, size), 0), initial, [])], {})
  {
    assert SoundEntry(initial, size, Entry(Cost(Manhattan(initial, size), 0), initial, []));
  }

  /** Entry i is expanded the A* way: its neighbors that are not explored (the popped
      state now included) are pushed, in order, priced. */
  ghost predicate PricedExpansion(size: nat, f: seq<Entry<Cost>>, i: nat, explored: set<Board>,
                                  pushed: seq<Entry<Cost>>)
  {
    i < |f| && Shape(f[i].state, size) &&
    PushedFrom(pushed, f[i].path, Unexplored(Neighbors(f[i].state, size), explored + {f[i].state})) &&
    forall m :: 0 <= m < |pushed| ==> WellPriced(pushed[m], size)
  }

  /** A popped goal entry of the A* frontier holds a path to the goal: the empty one
      exactly when the start is the goal, otherwise one ending in the goal. */
  lemma PricedFound(initial: Board, goal: Board, size: nat, f: seq<Entry<Cost>>, i: nat, explored: set<Board>)
    requires Priced(initial, goal, size, f, explored)
    requires i < |f| && f[i].state == goal
    ensures IsPath(initial, f[i].path, size) && End(initial, f[i].path) == goal
    ensures Reachable(initial, goal, size)
    ensures initial == goal ==> f[i].path == []
    ensures initial != goal ==> f[i].path != [] && f[i].path[|f[i].path| - 1] == goal
  {
    assert SoundEntry(initial, size, f[i]);
  }

  /** An empty A* frontier leaves the explored states sealed around the start. */
  lemma PricedExhausted(initial: Board, goal: Board, size: nat, f: seq<Entry<Cost>>, explored: set<Board>)
    requires Priced(initial, goal, size, f, explored) && f == []
    ensures !Reachable(initial, goal, size) && initial != goal
  {
    assert States(f) == {};
    SealedCutsOffGoal(initial, goal, size, explored);
  }

  /** Popping entry i (not the goal), marking it and pushing its unexplored neighbors
      keeps the A* invariant. */
  lemma PricedStep(initial: Board, goal: Board, size: nat, f: seq<Entry<Cost>>, i: nat,
                   explored: set<Board>, pushed: seq<Entry<Cost>>)
    requires Priced(initial, goal, size, f, explored)
    requires PricedExpansion(size, f, i, explored, pushed) && f[i].state != goal
    ensures Priced(initial, goal, size, Remove(f, i) + pushed, explored + {f[i].state})
  {
    PricedSound(initial, size, f, i, explored, pushed);
    PricedKeys(size, f, i, pushed);
    PricedOver(initial, size, f, i, explored);
    PricedClosed(goal, size, f, i, explored, pushed,
                 Unexplored(Neighbors(f[i].state, size), explored + {f[i].state}));
  }

  lemma PricedSound(initial: Board, size: nat, f: seq<Entry<Cost>>, i: nat, explored: set<Board>,
                    pushed: seq<Entry<Cost>>)
    requires Sound(initial, size, f) && PricedExpansion(size, f, i, explored, pushed)
    ensures Sound(initial, size, Remove(f, i) + pushed)
  {
    var added := Unexplored(Neighbors(f[i].state, size), explored + {f[i].state});
    UnexploredFacts(Neighbors(f[i].state, size), explored + {f[i].state});
    SoundAfter(initial, size, f, i, pushed, added);
  }

  lemma PricedKeys(size: nat, f: seq<Entry<Cost>>, i: nat, pushed: seq<Entry<Cost>>)
    requires i < |f| && forall k :: 0 <= k < |f| ==> WellPriced(f[k], size)
    requires forall m :: 0 <= m < |pushed| ==> WellPriced(pushed[m], size)
    ensures forall k :: 0 <= k < |Remove(f, i) + pushed| ==> WellPriced((Remove(f, i) + pushed)[k], size)
  {
    var f' := Remove(f, i) + pushed;
    assert forall k :: 0 <= k < |f'| ==> f'[k] == if k < |f| - 1 then Remove(f, i)[k] else pushed[k - (|f| - 1)];
  }

  lemma PricedOver(initial: Board, size: nat, f: seq<Entry<Cost>>, i: nat, explored: set<Board>)
    requires Sound(initial, size, f) && i < |f|
    requires forall s :: s in explored ==> Over(s, initial)
    ensures forall s :: s in explored + {f[i].state} ==> Over(s, initial)
  {
    assert SoundEntry(initial, size, f[i]);
  }

  lemma PricedClosed(goal: Board, size: nat, f: seq<Entry<Cost>>, i: nat, explored: set<Board>,
                     pushed: seq<Entry<Cost>>, added: seq<Board>)
    requires Closed(explored, explored + States(f), goal, size)
    requires i < |f| && Shape(f[i].state, size) && f[i].state != goal
    requires added == Unexplored(Neighbors(f[i].state, size), explored + {f[i].state})
    requires |pushed| == |added| && forall m :: 0 <= m < |pushed| ==> pushed[m].state == added[m]
    ensures Closed(explored + {f[i].state}, explored + {f[i].state} + States(Remove(f, i) + pushed), goal, size)
  {
    var s := f[i].state;
    var f' := Remove(f, i) + pushed;
    var c := explored + {s} + States(f');
    UnexploredFacts(Neighbors(s, size), explored + {s});
    StatesAfter(f, i, pushed);
    ClosedGrow(explored, explored + States(f), c, goal, size);
    PushedQueued(f, i, pushed, added);
    assert forall t :: t in Neighbors(s, size) ==> t in explored + {s} || t in added;
    ClosedAdd(explored, c, s, goal, size);
  }

  /** The states pushed after removing entry `i` are queued. */
  lemma PushedQueued<K>(f: seq<Entry<K>>, i: nat, pushed: seq<Entry<K>>, added: seq<Board>)
    requires i < |f|
    requires |pushed| == |added| && forall m :: 0 <= m < |pushed| ==> pushed[m].state == added[m]
    ensures forall t :: t in added ==> t in States(Remove(f, i) + pushed)
  {
    var f' := Remove(f, i) + pushed;
    forall t | t in added ensures t in States(f') {
      var m :| 0 <= m < |added| && added[m] == t;
      assert f'[|f| - 1 + m].state == t;
    }
  }

  /** Closing over a larger set. */
  lemma ClosedGrow(expanded: set<Board>, c: set<Board>, c': set<Board>, goal: Board, size: nat)
    requires Closed(expanded, c, goal, size) && c <= c'
    ensures Closed(expanded, c', goal, size)
  {
  }

  /** One more state, not the goal, whose neighbors are all in the set. */
  lemma ClosedAdd(expanded: set<Board>, c: set<Board>, s: Board, goal: Board, size: nat)
    requires Closed(expanded, c, goal, size) && s != goal && Shape(s, size)
    requires forall t :: t in Neighbors(s, size) ==> t in c
    ensures Closed(expanded + {s}, c, goal, size)
  {
  }

  /** What leaves the frontier in a step is the popped entry; what is pushed is in it. */
  lemma StatesAfter<K>(f: seq<Entry<K>>, i: nat, pushed: seq<Entry<K>>)
    requires i < |f|
    ensures States(f) <= {f[i].state} + States(Remove(f, i) + pushed)
  {
    var f' := Remove(f, i) + pushed;
    forall x | x in States(f) ensures x in {f[i].state} + States(f') {
      var m :| 0 <= m < |f| && f[m].state == x;
      if m < i {
        assert f'[m] == f[m];
      } else if m > i {
        assert f'[m - 1] == f[m];
      }
    }
  }

  /** After an A* expansion either less of the universe is unexplored, or the popped
      entry was a stale one and the stale count drops. */
  lemma PricedProgress(initial: Board, goal: Board, size: nat, f: seq<Entry<Cost>>, i: nat,
                       explored: set<Board>, pushed: seq<Entry<Cost>>)
    requires Priced(initial, goal, size, f, explored)
    requires PricedExpansion(size, f, i, explored, pushed)
    ensures var e' := explored + {f[i].state};
      || Universe(initial) - e' < Universe(initial) - explored
      || (e' == explored && Stale(Remove(f, i) + pushed, e') < Stale(f, explored))
  {
    var s := f[i].state;
    var e' := explored + {s};
    assert SoundEntry(initial, size, f[i]);
    OverInUniverse(e', initial);
    if s !in explored {
      Shrinks(Universe(initial), explored, e');
    } else {
      UnexploredFacts(Neighbors(s, size), e');
      StaleRemove(f, i, explored);
      StaleConcat(Remove(f, i), pushed, explored);
      StaleNone(pushed, explored);
    }
  }
}
