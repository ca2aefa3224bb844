/** What the three searches share: frontier entries, the neighbors they push, and
    the finite set of boards a search can ever meet, which bounds its explored set. */
module Frontier {
  import opened Tiles
  import opened Neighborhood
  import opened Paths

  /** A frontier entry: the ordering part of the source's tuple (nothing for the FIFO
      and LIFO queues, the priority for the priority queues), the state, and the path
      that led to it. */
  datatype Entry<K> = Entry(key: K, state: Board, path: seq<Board>)

  /** The ordering part of an A* entry: priority, then the moves made so far. */
  datatype Cost = Cost(priority: int, cost: nat)

  function Elems(ns: seq<Board>): set<Board>
  {
    set t | t in ns
  }

  function States<K>(f: seq<Entry<K>>): set<Board>
  {
    set i | 0 <= i < |f| :: f[i].state
  }

  predicate Distinct(xs: seq<Board>)
  {
    forall i, j :: 0 <= i < j < |xs| ==> xs[i] != xs[j]
  }

  /** The frontier with entry i taken out. */
  function Remove<K>(f: seq<Entry<K>>, i: nat): (r: seq<Entry<K>>)
    requires i < |f|
    ensures |r| == |f| - 1
    ensures forall k :: 0 <= k < |r| ==> r[k] == if k < i then f[k] else f[k + 1]
  {
    f[..i] + f[i + 1..]
  }

  /** The neighbors a search that marks at push time pushes, in order: each one
      neither explored nor pushed before it in the same expansion. */
  function NewStates(ns: seq<Board>, explored: set<Board>): seq<Board>
  {
    if ns == [] then []
    else
      var front := ns[..|ns| - 1];
      NewStates(front, explored) + (if ns[|ns| - 1] in explored + Elems(front) then [] else [ns[|ns| - 1]])
  }

  /** They are neighbors that were not explored, none twice, and every unexplored
      neighbor is among them. */
  lemma {:induction false} NewStatesFacts(ns: seq<Board>, explored: set<Board>)
    ensures forall t :: t in NewStates(ns, explored) ==> t in ns && t !in explored
    ensures Distinct(NewStates(ns, explored))
    ensures forall t :: t in ns && t !in explored ==> t in NewStates(ns, explored)
  {
    if ns != [] {
      var front := ns[..|ns| - 1];
      NewStatesFacts(front, explored);
      assert ns == front + [ns[|ns| - 1]];
    }
  }

  /** The neighbors the source's A* pushes, in order: those not explored; nothing
      is marked. */
  function Unexplored(ns: seq<Board>, explored: set<Board>): seq<Board>
  {
    if ns == [] then []
    else
      var front := ns[..|ns| - 1];
      Unexplored(front, explored) + (if ns[|ns| - 1] in explored then [] else [ns[|ns| - 1]])
  }

  lemma {:induction false} UnexploredFacts(ns: seq<Board>, explored: set<Board>)
    ensures forall t :: t in Unexplored(ns, explored) <==> t in ns && t !in explored
  {
    if ns != [] {
      var front := ns[..|ns| - 1];
      UnexploredFacts(front, explored);
      assert ns == front + [ns[|ns| - 1]];
    }
  }

  /** t has the start's length and only cells the start has. */
  predicate Over(t: Board, initial: Board)
  {
    |t| == |initial| && forall k :: 0 <= k < |t| ==> t[k] in initial
  }

  /** All boards of length n over the given cells: a finite set. */
  ghost function Boards(cells: set<Cell>, n: nat): set<Board>
  {
    if n == 0 then {[]}
    else set s, c | s in Boards(cells, n - 1) && c in cells :: s + [c]
  }

  lemma {:induction false} BoardsComplete(cells: set<Cell>, t: Board)
    requires forall k :: 0 <= k < |t| ==> t[k] in cells
    ensures t in Boards(cells, |t|)
  {
    if t != [] {
      var front := t[..|t| - 1];
      BoardsComplete(cells, front);
      assert t == front + [t[|t| - 1]];
    }
  }

  /** Every board a search from `initial` can meet. */
  ghost function Universe(initial: Board): set<Board>
  {
    Boards(set c | c in initial, |initial|)
  }

  lemma OverInUniverse(e: set<Board>, initial: Board)
    requires forall s :: s in e ==> Over(s, initial)
    ensures e <= Universe(initial)
  {
    forall s | s in e ensures s in Universe(initial) {
      BoardsComplete((set c | c in initial), s);
    }
  }

  /** A set of boards that grows inside the universe leaves less of it. */
  lemma Shrinks(u: set<Board>, e: set<Board>, e': set<Board>)
    requires e <= e' <= u && e' != e
    ensures u - e' < u - e
  {
    var x :| x in e' && x !in e;
    assert x in u - e && x !in u - e';
  }

  lemma NeighborsOver(s: Board, size: nat, initial: Board)
    requires Shape(s, size) && Over(s, initial)
    ensures forall t :: t in Neighbors(s, size) ==> Shape(t, size) && Over(t, initial)
  {
    forall t | t in Neighbors(s, size) ensures Shape(t, size) && Over(t, initial) {
      NeighborFacts(s, size, t);
    }
  }

  /** An entry is sound when its path runs from the start, move by move, to its state. */
  ghost predicate SoundEntry<K>(initial: Board, size: nat, e: Entry<K>)
  {
    Shape(e.state, size) && Over(e.state, initial) && IsPath(initial, e.path, size)
    && End(initial, e.path) == e.state
  }

  ghost predicate Sound<K>(initial: Board, size: nat, f: seq<Entry<K>>)
  {
    forall i :: 0 <= i < |f| ==> SoundEntry(initial, size, f[i])
  }

  /** Extending a sound entry's path by one of its state's neighbors is sound. */
  lemma ExtendSound<K, L>(initial: Board, size: nat, e: Entry<K>, t: Board, k: L)
    requires SoundEntry(initial, size, e) && t in Neighbors(e.state, size)
    ensures SoundEntry(initial, size, Entry(k, t, e.path + [t]))
  {
    PathExtend(initial, e.path, t, size);
    NeighborsOver(e.state, size, initial);
  }

  /** How many entries hold a state already explored. */
  function Stale<K>(f: seq<Entry<K>>, explored: set<Board>): nat
  {
    if f == [] then 0 else (if f[0].state in explored then 1 else 0) + Stale(f[1..], explored)
  }

  lemma {:induction false} StaleConcat<K>(a: seq<Entry<K>>, b: seq<Entry<K>>, explored: set<Board>)
    ensures Stale(a + b, explored) == Stale(a, explored) + Stale(b, explored)
  {
    if a == [] {
      assert a + b == b;
    } else {
      assert (a + b)[1..] == a[1..] + b;
      StaleConcat(a[1..], b, explored);
    }
  }

  lemma {:induction false} StaleNone<K>(a: seq<Entry<K>>, explored: set<Board>)
    requires forall k :: 0 <= k < |a| ==> a[k].state !in explored
    ensures Stale(a, explored) == 0
  {
    if a != [] {
      StaleNone(a[1..], explored);
    }
  }

  /** Taking out an entry whose state is explored leaves one stale entry fewer. */
  lemma StaleRemove<K>(f: seq<Entry<K>>, i: nat, explored: set<Board>)
    requires i < |f| && f[i].state in explored
    ensures Stale(Remove(f, i), explored) + 1 == Stale(f, explored)
  {
    assert f == f[..i] + ([f[i]] + f[i + 1..]);
    StaleConcat(f[..i], [f[i]] + f[i + 1..], explored);
    StaleConcat([f[i]], f[i + 1..], explored);
    StaleConcat(f[..i], f[i + 1..], explored);
    assert ([f[i]] + f[i + 1..])[1..] == f[i + 1..];
  }

  /** Entry i has the least rank: what a priority queue's `get` may return. */
  predicate Least<K>(f: seq<Entry<K>>, i: nat, rank: K -> int)
  {
    i < |f| && forall j :: 0 <= j < |f| ==> rank(f[i].key) <= rank(f[j].key)
  }

  lemma {:induction false} LeastExists<K>(f: seq<Entry<K>>, rank: K -> int)
    requires f != []
    ensures exists i :: Least(f, i, rank)
  {
    if |f| > 1 {
      LeastExists(f[1..], rank);
      var i: nat :| Least(f[1..], i, rank);
      if rank(f[0].key) <= rank(f[i + 1].key) {
        assert forall j :: 1 <= j < |f| ==> f[j] == f[1..][j - 1];
        assert Least(f, 0, rank);
      } else {
        assert forall j :: 1 <= j < |f| ==> f[j] == f[1..][j - 1];
        assert Least(f, i + 1, rank);
      }
    } else {
      assert Least(f, 0, rank);
    }
  }
}
