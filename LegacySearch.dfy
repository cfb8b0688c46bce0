/** The searches of the older evaluator: a plain flood fill over open cells, its
    "closest start" wrapper, and the breadth-first searches over (cell, keys)
    states in which any upper-case letter other than S, E, T, K and D is a door. */
module LegacySearch {
  import opened MazeCommon
  import Pathfinding

  // ---------------------------------------------------------------------
  // bfs_reachable

  /** The cells the flood fill may enter: in the grid and one of ' ', 'S', 'E', 'K', 'D'. */
  predicate Open(grid: Grid, p: Pos)
  {
    InGrid(grid, p) && grid[p.r][p.c] in {' ', 'S', 'E', 'K', 'D'}
  }

  function Cells(grid: Grid): (cells: set<Pos>)
    ensures forall p :: p in cells <==> InGrid(grid, p)
  {
    var cells := set r, c | 0 <= r < |grid| && 0 <= c < |grid[r]| :: Pos(r, c);
    assert forall p :: InGrid(grid, p) ==> Pos(p.r, p.c) in cells;
    cells
  }

  /** One flood step: to a 4-adjacent open cell. */
  predicate OpenStep(grid: Grid, a: Pos, b: Pos)
  {
    Adjacent(a, b) && Open(grid, b)
  }

  /** A walk of open steps (its first cell may be anything). */
  ghost predicate IsOpenWalk(grid: Grid, w: seq<Pos>)
  {
    |w| >= 1 && forall i :: 0 <= i < |w| - 1 ==> OpenStep(grid, w[i], w[i + 1])
  }

  ghost predicate OpenReachable(grid: Grid, s: Pos, p: Pos)
  {
    exists w :: IsOpenWalk(grid, w) && w[0] == s && w[|w| - 1] == p
  }

  /** Every cell an open walk from `s` can end on. */
  ghost function Reach(grid: Grid, s: Pos): set<Pos>
  {
    set p | p in Cells(grid) + {s} && OpenReachable(grid, s, p)
  }

  /** A neighbour is one of the four direction offsets away. */
  lemma AdjacentDirection(a: Pos, b: Pos) returns (d: nat)
    requires Adjacent(a, b)
    ensures d < 4 && b == Shift(a, Directions[d])
  {
    if b.r < a.r { d := 0; }
    else if b.r > a.r { d := 1; }
    else if b.c < a.c { d := 2; }
    else { d := 3; }
  }

  lemma ExtendOpenWalk(grid: Grid, s: Pos, p: Pos, n: Pos)
    requires OpenReachable(grid, s, p) && OpenStep(grid, p, n)
    ensures OpenReachable(grid, s, n)
  {
    var w :| IsOpenWalk(grid, w) && w[0] == s && w[|w| - 1] == p;
    var w' := w + [n];
    assert IsOpenWalk(grid, w') && w'[0] == s && w'[|w'| - 1] == n;
  }

  ghost predicate ClosedUnderOpenSteps(grid: Grid, v: set<Pos>)
  {
    forall p, d :: p in v && 0 <= d < 4 && Open(grid, Shift(p, Directions[d])) ==> Shift(p, Directions[d]) in v
  }

  /** A set holding `s` and closed under open steps holds every cell of every open walk from `s`. */
  lemma {:induction false} ClosedHoldsWalk(grid: Grid, v: set<Pos>, w: seq<Pos>, i: nat)
    requires ClosedUnderOpenSteps(grid, v) && IsOpenWalk(grid, w) && w[0] in v && i < |w|
    ensures w[i] in v
  {
    if i > 0 {
      ClosedHoldsWalk(grid, v, w, i - 1);
      assert OpenStep(grid, w[i - 1], w[i]);
      var d := AdjacentDirection(w[i - 1], w[i]);
    }
  }

  /** The body of the flood's inner loop: every open neighbour of `p` not yet
      visited is marked and queued, in direction order. */
  method FloodNeighbours(grid: Grid, ghost start: Pos, p: Pos, visited: set<Pos>, queue: seq<Pos>)
    returns (visited': set<Pos>, queue': seq<Pos>)
    requires OpenReachable(grid, start, p)
    requires forall x :: x in visited ==> OpenReachable(grid, start, x)
    ensures visited <= visited' && visited' - visited <= Cells(grid)
    ensures Elems(queue') == Elems(queue) + (visited' - visited)
    ensures |queue| <= |queue'| && (visited' == visited ==> queue' == queue)
    ensures forall x :: x in visited' ==> OpenReachable(grid, start, x)
    ensures forall d :: 0 <= d < 4 && Open(grid, Shift(p, Directions[d])) ==> Shift(p, Directions[d]) in visited'
  {
    visited', queue' := visited, queue;
    for d := 0 to 4
      invariant visited <= visited' && visited' - visited <= Cells(grid)
      invariant Elems(queue') == Elems(queue) + (visited' - visited)
      invariant |queue| <= |queue'| && (visited' == visited ==> queue' == queue)
      invariant forall x :: x in visited' ==> OpenReachable(grid, start, x)
      invariant forall d' :: 0 <= d' < d && Open(grid, Shift(p, Directions[d'])) ==> Shift(p, Directions[d']) in visited'
    {
      var n := Shift(p, Directions[d]);
      if 0 <= n.r < |grid| && 0 <= n.c < |grid[n.r]| && n !in visited' && grid[n.r][n.c] in {' ', 'S', 'E', 'K', 'D'} {
        DirectionsAreAdjacent(p, d);
        ExtendOpenWalk(grid, start, p, n);
        assert Elems(queue' + [n]) == Elems(queue') + {n};
        visited' := visited' + {n};
        queue' := queue' + [n];
      }
    }
  }

  /** What the flood keeps: everything marked is reachable, the marked cells are
      the popped ones and the queued ones, and a popped cell's open neighbours are marked. */
  ghost predicate FloodInv(grid: Grid, start: Pos, reachable: set<Pos>, visited: set<Pos>, queue: seq<Pos>)
  {
    && start in visited && visited <= Cells(grid) + {start}
    && (forall p :: p in visited ==> OpenReachable(grid, start, p))
    && visited == reachable + Elems(queue)
    && forall p, d :: p in reachable && 0 <= d < 4 && Open(grid, Shift(p, Directions[d])) ==>
         Shift(p, Directions[d]) in visited
  }

  lemma FloodStep(grid: Grid, start: Pos, reachable: set<Pos>, visited: set<Pos>, queue: seq<Pos>,
                  visited': set<Pos>, queue': seq<Pos>)
    requires FloodInv(grid, start, reachable, visited, queue) && queue != []
    requires visited <= visited' && visited' - visited <= Cells(grid)
    requires Elems(queue') == Elems(queue[1..]) + (visited' - visited)
    requires forall x :: x in visited' ==> OpenReachable(grid, start, x)
    requires forall d :: 0 <= d < 4 && Open(grid, Shift(queue[0], Directions[d])) ==> Shift(queue[0], Directions[d]) in visited'
    ensures FloodInv(grid, start, reachable + {queue[0]}, visited', queue')
  {
    assert Elems(queue) == {queue[0]} + Elems(queue[1..]);
  }

  /** `bfs_reachable`: the start and every open cell reachable from it by open steps. */
  method BfsReachable(grid: Grid, start: Pos) returns (reachable: set<Pos>)
    ensures reachable == Reach(grid, start)
  {
    ghost var universe := Cells(grid) + {start};
    reachable := {};
    var queue := [start];
    var visited := {start};
    assert IsOpenWalk(grid, [start]);
    assert Elems(queue) == {start};
    while queue != []
      invariant FloodInv(grid, start, reachable, visited, queue)
      decreases |universe - visited|, |queue|
    {
      ghost var v0, q0, r0 := visited, queue, reachable;
      var p := queue[0];
      queue := queue[1..];
      reachable := reachable + {p};
      visited, queue := FloodNeighbours(grid, start, p, visited, queue);
      FloodStep(grid, start, r0, v0, q0, visited, queue);
      Shrinks(universe, v0, visited);
    }
    ClosedIsReach(grid, start, visited);
  }

  /** A set of reachable cells that holds the start and is closed under open steps is the whole reach. */
  lemma ClosedIsReach(grid: Grid, start: Pos, v: set<Pos>)
    requires start in v && v <= Cells(grid) + {start}
    requires forall p :: p in v ==> OpenReachable(grid, start, p)
    requires forall p, d :: p in v && 0 <= d < 4 && Open(grid, Shift(p, Directions[d])) ==> Shift(p, Directions[d]) in v
    ensures v == Reach(grid, start)
  {
    forall p | p in Reach(grid, start) ensures p in v {
      var w :| IsOpenWalk(grid, w) && w[0] == start && w[|w| - 1] == p;
      ClosedHoldsWalk(grid, v, w, |w| - 1);
    }
  }

  /** Marking more cells of a finite universe leaves fewer unmarked. */
  lemma Shrinks<T>(universe: set<T>, v0: set<T>, v1: set<T>)
    requires v0 <= v1 <= universe
    ensures v1 != v0 ==> |universe - v1| < |universe - v0|
    ensures v1 == v0 ==> |universe - v1| == |universe - v0|
  {
    if v1 != v0 {
      SetSmaller(universe - v1, universe - v0);
    }
  }

  lemma SetSmaller<T>(a: set<T>, b: set<T>)
    requires a < b
    ensures |a| < |b|
  {
    var x :| x in b && x !in a;
    assert a <= b - {x};
    SubsetSize(a, b - {x});
  }

  lemma SubsetSize<T>(a: set<T>, b: set<T>)
    requires a <= b
    ensures |a| <= |b|
  {
    assert b == a + (b - a);
  }

  // ---------------------------------------------------------------------
  // bfs_reachable_from_set

  /** `bfs_reachable_from_set`: flood from the target when it is a start; otherwise
      from the first start met at the smallest Manhattan distance; nothing for no starts. */
  method BfsReachableFromSet(grid: Grid, startSet: set<Pos>, target: Pos) returns (r: set<Pos>)
    ensures target in startSet ==> r == Reach(grid, target)
    ensures startSet == {} ==> r == {}
    ensures target !in startSet && startSet != {} ==>
      exists s :: s in startSet && (forall q :: q in startSet ==> Manhattan(s, target) <= Manhattan(q, target))
                  && r == Reach(grid, s)
  {
    if target in startSet {
      r := BfsReachable(grid, target);
      return;
    }
    var closest: Option<Pos> := None;
    var minDist := 0;
    var remaining := startSet;
    while remaining != {}
      invariant remaining <= startSet
      invariant closest.None? <==> remaining == startSet
      invariant closest.Some? ==> closest.value in startSet && minDist == Manhattan(closest.value, target)
                                  && forall q :: q in startSet - remaining ==> minDist <= Manhattan(q, target)
      decreases |remaining|
    {
      var s :| s in remaining;
      var dist := Abs(s.r - target.r) + Abs(s.c - target.c);
      if closest.None? || dist < minDist {
        minDist := dist;
        closest := Some(s);
      }
      remaining := remaining - {s};
    }
    if closest.Some? {
      r := BfsReachable(grid, closest.value);
    } else {
      r := {};
    }
  }

  // ---------------------------------------------------------------------
  // The (cell, keys) searches: get_stateful_path and solve_maze_graph

  /** A search state: the cell stood on and the keys picked up before it. */
  datatype KeyState = KeyState(pos: Pos, keys: set<char>)

  /** A door of the older evaluator: any upper-case letter except S, E, T, K and D. */
  predicate IsLegacyDoor(ch: char) { IsUpper(ch) && ch !in {'S', 'E', 'T', 'K', 'D'} }

  /** The key lying on `p`, if any. */
  function KeyAt(grid: Grid, p: Pos): set<char>
  {
    if InGrid(grid, p) && IsLower(grid[p.r][p.c]) then {grid[p.r][p.c]} else {}
  }

  /** A search holding `keys` may step onto `p`: in the grid, no wall, and a door only with its key. */
  predicate Enterable(grid: Grid, p: Pos, keys: set<char>)
  {
    InGrid(grid, p) && grid[p.r][p.c] != '#'
    && (IsLegacyDoor(grid[p.r][p.c]) ==> ToLower(grid[p.r][p.c]) in keys)
  }

  /** One move: to a neighbour, carrying the keys held plus the one underfoot. */
  predicate KeyStep(grid: Grid, s: KeyState, t: KeyState)
  {
    Adjacent(s.pos, t.pos) && t.keys == s.keys + KeyAt(grid, s.pos) && Enterable(grid, t.pos, t.keys)
  }

  ghost predicate IsKeyWalk(grid: Grid, w: seq<KeyState>)
  {
    |w| >= 1 && forall i :: 0 <= i < |w| - 1 ==> KeyStep(grid, w[i], w[i + 1])
  }

  /** The keys lying on the cells of `ps`. */
  function KeysOn(grid: Grid, ps: seq<Pos>): set<char>
  {
    if ps == [] then {} else KeysOn(grid, ps[..|ps| - 1]) + KeyAt(grid, ps[|ps| - 1])
  }

  predicate RouteStepAt(grid: Grid, path: seq<Pos>, i: nat)
    requires i < |path| - 1
  {
    Adjacent(path[i], path[i + 1]) && Enterable(grid, path[i + 1], KeysOn(grid, path[..i + 1]))
  }

  /** A route from `start` to `end`: every step goes to a neighbour that is no wall,
      and through a door only when its key lies on an earlier cell of the route. */
  predicate KeyRoute(grid: Grid, start: Pos, end: Pos, path: seq<Pos>)
  {
    |path| >= 1 && path[0] == start && path[|path| - 1] == end
    && forall i :: 0 <= i < |path| - 1 ==> RouteStepAt(grid, path, i)
  }

  /** A queue entry: its path is a route to the state's cell, and the state holds
      exactly the keys on the path before that cell. */
  ghost predicate EntryOK(grid: Grid, start: Pos, e: (KeyState, seq<Pos>))
  {
    KeyRoute(grid, start, e.0.pos, e.1) && e.0.keys == KeysOn(grid, e.1[..|e.1| - 1])
  }

  ghost predicate NoDup<T>(h: seq<T>) { forall a, b :: 0 <= a < b < |h| ==> h[a] != h[b] }

  function StatesOf(q: seq<(KeyState, seq<Pos>)>): (r: seq<KeyState>)
    ensures |r| == |q| && forall i :: 0 <= i < |q| ==> r[i] == q[i].0
  {
    if q == [] then [] else StatesOf(q[..|q| - 1]) + [q[|q| - 1].0]
  }

  /** Every move out of `s` lands on a state of `v`. */
  ghost predicate Expanded(grid: Grid, s: KeyState, v: set<KeyState>)
  {
    forall t :: KeyStep(grid, s, t) ==> t in v
  }

  /** What both searches keep: every state enqueued so far (popped ones, then
      queued ones) is distinct, starts from the initial state and is marked visited;
      queued entries carry good routes; popped states are not the end and are expanded. */
  ghost predicate SearchInv(grid: Grid, start: Pos, end: Pos, popped: seq<KeyState>,
                            queue: seq<(KeyState, seq<Pos>)>, visited: set<KeyState>)
  {
    var history := popped + StatesOf(queue);
    && |history| >= 1 && history[0] == KeyState(start, {})
    && NoDup(history) && visited == Elems(history)
    && (forall i :: 0 <= i < |queue| ==> EntryOK(grid, start, queue[i]))
    && forall j :: 0 <= j < |popped| ==> popped[j].pos != end && Expanded(grid, popped[j], visited)
  }

  lemma InitialInv(grid: Grid, start: Pos, end: Pos)
    ensures SearchInv(grid, start, end, [], [(KeyState(start, {}), [start])], {KeyState(start, {})})
  {
    assert StatesOf([(KeyState(start, {}), [start])]) == [KeyState(start, {})];
    assert KeysOn(grid, [start][..0]) == {};
  }

  /** A queued cell other than the end lies in the grid. */
  lemma EntryInGrid(grid: Grid, start: Pos, end: Pos, e: (KeyState, seq<Pos>))
    requires EntryOK(grid, start, e) && (InGrid(grid, start) || start == end) && e.0.pos != end
    ensures InGrid(grid, e.0.pos)
  {
    if |e.1| > 1 {
      assert RouteStepAt(grid, e.1, |e.1| - 2);
    }
  }

  lemma KeysOnPrefix(grid: Grid, path: seq<Pos>, n: Pos, i: nat)
    requires i <= |path|
    ensures KeysOn(grid, (path + [n])[..i]) == KeysOn(grid, path[..i])
  {
    assert (path + [n])[..i] == path[..i];
  }

  /** Stepping from a good entry to an enterable neighbour gives a good entry. */
  lemma ExtendEntry(grid: Grid, start: Pos, s: KeyState, path: seq<Pos>, n: Pos)
    requires EntryOK(grid, start, (s, path))
    requires Adjacent(s.pos, n) && Enterable(grid, n, s.keys + KeyAt(grid, s.pos))
    ensures EntryOK(grid, start, (KeyState(n, s.keys + KeyAt(grid, s.pos)), path + [n]))
  {
    var path' := path + [n];
    assert path'[..|path'| - 1] == path;
    assert path[..|path| - 1] + [path[|path| - 1]] == path;
    forall i | 0 <= i < |path'| - 1 ensures RouteStepAt(grid, path', i) {
      KeysOnPrefix(grid, path, n, i + 1);
      if i < |path| - 1 {
        assert RouteStepAt(grid, path, i);
      }
    }
  }

  /** How one expansion grows the queue and the visited set: the old queue is kept
      as a prefix, the new states are distinct, were not visited before, carry the
      keys `k` and good routes, and are now visited. */
  ghost predicate Grown(grid: Grid, start: Pos, k: set<char>, queue: seq<(KeyState, seq<Pos>)>, visited: set<KeyState>,
                        queue': seq<(KeyState, seq<Pos>)>, visited': set<KeyState>, added: seq<KeyState>)
  {
    && StatesOf(queue') == StatesOf(queue) + added && |queue'| == |queue| + |added|
    && (forall i :: 0 <= i < |queue| ==> queue'[i] == queue[i])
    && visited' == visited + Elems(added)
    && NoDup(added) && visited !! Elems(added) && (added == [] <==> visited' == visited)
    && (forall i :: |queue| <= i < |queue'| ==> EntryOK(grid, start, queue'[i]))
    && forall t :: t in added ==> t.pos in Cells(grid) && t.keys == k
  }

  lemma GrowOne(grid: Grid, start: Pos, k: set<char>, queue: seq<(KeyState, seq<Pos>)>, visited: set<KeyState>,
                queue': seq<(KeyState, seq<Pos>)>, visited': set<KeyState>, added: seq<KeyState>, e: (KeyState, seq<Pos>))
    requires Grown(grid, start, k, queue, visited, queue', visited', added)
    requires EntryOK(grid, start, e) && e.0 !in visited' && e.0.pos in Cells(grid) && e.0.keys == k
    ensures Grown(grid, start, k, queue, visited, queue' + [e], visited' + {e.0}, added + [e.0])
  {
    var q2, v2, a2 := queue' + [e], visited' + {e.0}, added + [e.0];
    assert StatesOf(q2) == StatesOf(queue) + a2 by {
      assert StatesOf(q2) == StatesOf(queue') + [e.0];
    }
    assert v2 == visited + Elems(a2) by {
      ElemsAppend(added, [e.0]);
      assert Elems([e.0]) == {e.0};
    }
    assert NoDup(a2) by {
      assert e.0 !in Elems(added);
    }
    assert e.0 in v2 && e.0 !in visited;
    assert forall i :: |queue| <= i < |q2| ==> EntryOK(grid, start, q2[i]) by {
      forall i | |queue| <= i < |q2| ensures EntryOK(grid, start, q2[i]) {
        if i < |queue'| {
          assert q2[i] == queue'[i];
        }
      }
    }
  }

  /** The body of both searches' inner loop: each enterable neighbour of `s`, in
      direction order, whose state is new is marked and queued with its route;
      afterwards every move out of `s` lands on a visited state. */
  method ExpandState(grid: Grid, ghost start: Pos, s: KeyState, path: seq<Pos>,
                     queue: seq<(KeyState, seq<Pos>)>, visited: set<KeyState>)
    returns (queue': seq<(KeyState, seq<Pos>)>, visited': set<KeyState>, ghost added: seq<KeyState>)
    requires InGrid(grid, s.pos) && EntryOK(grid, start, (s, path))
    ensures Grown(grid, start, s.keys + KeyAt(grid, s.pos), queue, visited, queue', visited', added)
    ensures Expanded(grid, s, visited')
  {
    var nextKeys := s.keys;
    var cur := grid[s.pos.r][s.pos.c];
    if 'a' <= cur <= 'z' {
      nextKeys := nextKeys + {cur};
    }
    assert nextKeys == s.keys + KeyAt(grid, s.pos);
    queue', visited', added := queue, visited, [];
    GrownNothing(grid, start, nextKeys, queue, visited);
    for d := 0 to 4
      invariant Grown(grid, start, nextKeys, queue, visited, queue', visited', added)
      invariant visited <= visited'
      invariant forall d' :: 0 <= d' < d && Enterable(grid, Shift(s.pos, Directions[d']), nextKeys) ==>
                  KeyState(Shift(s.pos, Directions[d']), nextKeys) in visited'
    {
      queue', visited', added := TryNeighbour(grid, start, s, path, nextKeys, d, queue, visited, queue', visited', added);
    }
    AllDirectionsExpanded(grid, s, visited');
  }

  lemma GrownNothing(grid: Grid, start: Pos, k: set<char>, queue: seq<(KeyState, seq<Pos>)>, visited: set<KeyState>)
    ensures Grown(grid, start, k, queue, visited, queue, visited, [])
  {
    assert StatesOf(queue) + [] == StatesOf(queue);
  }

  /** A state is expanded once the neighbour in each of the four directions is. */
  lemma AllDirectionsExpanded(grid: Grid, s: KeyState, v: set<KeyState>)
    requires forall d :: 0 <= d < 4 && Enterable(grid, Shift(s.pos, Directions[d]), s.keys + KeyAt(grid, s.pos)) ==>
               KeyState(Shift(s.pos, Directions[d]), s.keys + KeyAt(grid, s.pos)) in v
    ensures Expanded(grid, s, v)
  {
    forall t | KeyStep(grid, s, t) ensures t in v {
      var d := AdjacentDirection(s.pos, t.pos);
    }
  }

  /** One direction of the inner loop: an enterable neighbour whose state is new is
      marked and queued with its route. */
  method TryNeighbour(grid: Grid, ghost start: Pos, s: KeyState, path: seq<Pos>, nextKeys: set<char>, d: nat,
                      ghost queue0: seq<(KeyState, seq<Pos>)>, ghost visited0: set<KeyState>,
                      queue: seq<(KeyState, seq<Pos>)>, visited: set<KeyState>, ghost added: seq<KeyState>)
    returns (queue': seq<(KeyState, seq<Pos>)>, visited': set<KeyState>, ghost added': seq<KeyState>)
    requires d < 4 && InGrid(grid, s.pos) && EntryOK(grid, start, (s, path))
    requires nextKeys == s.keys + KeyAt(grid, s.pos)
    requires Grown(grid, start, nextKeys, queue0, visited0, queue, visited, added)
    ensures Grown(grid, start, nextKeys, queue0, visited0, queue', visited', added') && visited <= visited'
    ensures Enterable(grid, Shift(s.pos, Directions[d]), nextKeys) ==>
      KeyState(Shift(s.pos, Directions[d]), nextKeys) in visited'
  {
    queue', visited', added' := queue, visited, added;
    var n := Shift(s.pos, Directions[d]);
    if 0 <= n.r < |grid| && 0 <= n.c < |grid[n.r]| {
      var nChar := grid[n.r][n.c];
      if nChar != '#' && !('A' <= nChar <= 'Z' && nChar !in {'S', 'E', 'T', 'K', 'D'} && ToLower(nChar) !in nextKeys) {
        var t := KeyState(n, nextKeys);
        if t !in visited {
          DirectionsAreAdjacent(s.pos, d);
          ExtendEntry(grid, start, s, path, n);
          GrowOne(grid, start, nextKeys, queue0, visited0, queue, visited, added, (t, path + [n]));
          visited' := visited + {t};
          queue' := queue + [(t, path + [n])];
          added' := added + [t];
        }
      }
    }
  }

  lemma NoDupAppend<T>(a: seq<T>, b: seq<T>)
    requires NoDup(a) && NoDup(b) && Elems(a) !! Elems(b)
    ensures NoDup(a + b)
  {
    forall i, j | 0 <= i < j < |a + b| ensures (a + b)[i] != (a + b)[j] {
      if i < |a| && j >= |a| {
        assert (a + b)[i] in Elems(a) && (a + b)[j] in Elems(b);
      }
    }
  }

  lemma StatesOfPop(queue: seq<(KeyState, seq<Pos>)>)
    requires queue != []
    ensures StatesOf(queue) == [queue[0].0] + StatesOf(queue[1..])
  {
  }

  /** The states enqueued after one expansion: the old ones, then the new ones. */
  lemma HistoryAfterPop(popped: seq<KeyState>, queue: seq<(KeyState, seq<Pos>)>, queue': seq<(KeyState, seq<Pos>)>,
                        added: seq<KeyState>)
    requires queue != [] && StatesOf(queue') == StatesOf(queue[1..]) + added
    ensures popped + [queue[0].0] + StatesOf(queue') == (popped + StatesOf(queue)) + added
  {
    StatesOfPop(queue);
  }

  lemma ElemsAppend<T>(a: seq<T>, b: seq<T>)
    ensures Elems(a + b) == Elems(a) + Elems(b)
  {
    assert forall x :: x in a + b <==> x in a || x in b;
  }

  lemma QueueAfterPop(grid: Grid, start: Pos, queue: seq<(KeyState, seq<Pos>)>, queue': seq<(KeyState, seq<Pos>)>)
    requires queue != [] && |queue| - 1 <= |queue'|
    requires forall i :: 0 <= i < |queue| ==> EntryOK(grid, start, queue[i])
    requires forall i :: 0 <= i < |queue| - 1 ==> queue'[i] == queue[1..][i]
    requires forall i :: |queue| - 1 <= i < |queue'| ==> EntryOK(grid, start, queue'[i])
    ensures forall i :: 0 <= i < |queue'| ==> EntryOK(grid, start, queue'[i])
  {
    forall i | 0 <= i < |queue'| ensures EntryOK(grid, start, queue'[i]) {
      if i < |queue| - 1 {
        assert queue'[i] == queue[i + 1];
      }
    }
  }

  /** Popping a state that is not the end and expanding it keeps the invariant. */
  lemma {:induction false} SearchStep(grid: Grid, start: Pos, end: Pos, popped: seq<KeyState>, queue: seq<(KeyState, seq<Pos>)>,
                   visited: set<KeyState>, k: set<char>, queue': seq<(KeyState, seq<Pos>)>, visited': set<KeyState>,
                   added: seq<KeyState>)
    requires SearchInv(grid, start, end, popped, queue, visited) && queue != [] && queue[0].0.pos != end
    requires Grown(grid, start, k, queue[1..], visited, queue', visited', added)
    requires Expanded(grid, queue[0].0, visited')
    ensures SearchInv(grid, start, end, popped + [queue[0].0], queue', visited')
  {
    var h0 := popped + StatesOf(queue);
    HistoryAfterPop(popped, queue, queue', added);
    ElemsAppend(h0, added);
    NoDupAppend(h0, added);
    QueueAfterPop(grid, start, queue, queue');
    var popped' := popped + [queue[0].0];
    assert forall j :: 0 <= j < |popped'| ==> popped'[j].pos != end && Expanded(grid, popped'[j], visited') by {
      forall j | 0 <= j < |popped'| ensures popped'[j].pos != end && Expanded(grid, popped'[j], visited') {
        if j < |popped| {
          assert popped'[j] == popped[j];
        }
      }
    }
  }

  lemma {:induction false} WalkStaysVisited(grid: Grid, start: Pos, end: Pos, popped: seq<KeyState>,
                                            visited: set<KeyState>, w: seq<KeyState>, i: nat)
    requires SearchInv(grid, start, end, popped, [], visited)
    requires IsKeyWalk(grid, w) && w[0] == KeyState(start, {}) && i < |w|
    ensures w[i] in visited && w[i].pos != end
  {
    assert StatesOf([]) == [] && popped + [] == popped;
    if i > 0 {
      WalkStaysVisited(grid, start, end, popped, visited, w, i - 1);
      var j :| 0 <= j < |popped| && popped[j] == w[i - 1];
      assert KeyStep(grid, w[i - 1], w[i]);
    }
    var k :| 0 <= k < |popped| && popped[k] == w[i];
  }

  /** Every route has a walk of states shadowing it, ending on the route's last cell. */
  lemma RouteGivesWalk(grid: Grid, start: Pos, end: Pos, path: seq<Pos>) returns (w: seq<KeyState>)
    requires KeyRoute(grid, start, end, path)
    ensures IsKeyWalk(grid, w) && w[0] == KeyState(start, {}) && w[|w| - 1].pos == end
  {
    w := seq(|path|, i requires 0 <= i < |path| => KeyState(path[i], KeysOn(grid, path[..i])));
    assert path[..0] == [];
    forall i | 0 <= i < |w| - 1 ensures KeyStep(grid, w[i], w[i + 1]) {
      assert RouteStepAt(grid, path, i);
      assert path[..i + 1][..i] == path[..i];
    }
  }

  /** When the queue runs dry, no route reaches the end. */
  lemma ExhaustedMeansNoRoute(grid: Grid, start: Pos, end: Pos, popped: seq<KeyState>, visited: set<KeyState>)
    requires SearchInv(grid, start, end, popped, [], visited)
    ensures forall path :: !KeyRoute(grid, start, end, path)
  {
    forall path | KeyRoute(grid, start, end, path) ensures false {
      var w := RouteGivesWalk(grid, start, end, path);
      WalkStaysVisited(grid, start, end, popped, visited, w, |w| - 1);
    }
  }

  // get_stateful_path

  /** The lower-case letters anywhere in the grid: every key a search can hold. */
  function GridKeys(grid: Grid): set<char>
  {
    set r, c | 0 <= r < |grid| && 0 <= c < |grid[r]| && IsLower(grid[r][c]) :: grid[r][c]
  }

  /** The states standing on a cell of `cells` holding a subset of `keys`. */
  ghost function Space(cells: set<Pos>, keys: set<char>): set<KeyState>
  {
    set p, ks | p in cells && ks <= keys :: KeyState(p, ks)
  }

  /** Every state a search over `grid` from `start` can be in. */
  ghost function StateSpace(grid: Grid, start: Pos): set<KeyState>
  {
    Space(Cells(grid) + {start}, GridKeys(grid))
  }

  function Pow2(n: nat): nat { if n == 0 then 1 else 2 * Pow2(n - 1) }

  /** The number of cells of a (possibly ragged) grid. */
  function CellTotal(grid: Grid): nat
  {
    if grid == [] then 0 else CellTotal(grid[..|grid| - 1]) + |grid[|grid| - 1]|
  }

  ghost function Image<A, B>(s: set<A>, f: A -> B): set<B>
  {
    set x | x in s :: f(x)
  }

  lemma {:induction false} ImageBound<A, B>(s: set<A>, f: A -> B)
    ensures |Image(s, f)| <= |s|
    decreases |s|
  {
    if s != {} {
      var y :| y in s;
      ImageBound(s - {y}, f);
      assert Image(s, f) <= Image(s - {y}, f) + {f(y)};
      SubsetSize(Image(s, f), Image(s - {y}, f) + {f(y)});
    } else {
      assert Image(s, f) == {};
    }
  }

  ghost function PowerSet(keys: set<char>): set<set<char>>
  {
    set ks: set<char> | ks <= keys
  }

  lemma {:induction false} PowerSetBound(keys: set<char>)
    ensures |PowerSet(keys)| <= Pow2(|keys|)
    decreases |keys|
  {
    if keys == {} {
      PowerSetEmpty(keys);
    } else {
      var y :| y in keys;
      PowerSetBound(keys - {y});
      PowerSetStep(keys, y);
      assert |keys - {y}| == |keys| - 1;
    }
  }

  lemma PowerSetEmpty(keys: set<char>)
    requires keys == {}
    ensures |PowerSet(keys)| == 1
  {
    assert {} in PowerSet(keys);
    forall ks | ks in PowerSet(keys) ensures ks == {} {
    }
    assert PowerSet(keys) == {{}};
  }

  /** Adding one key at most doubles the number of key sets. */
  lemma PowerSetStep(keys: set<char>, y: char)
    requires y in keys
    ensures |PowerSet(keys)| <= 2 * |PowerSet(keys - {y})|
  {
    var rest := PowerSet(keys - {y});
    var f := (ks: set<char>) => ks + {y};
    ImageBound(rest, f);
    PowerSetCover(keys, y, f);
    SubsetSize(PowerSet(keys), rest + Image(rest, f));
    UnionSize(rest, Image(rest, f));
  }

  /** A subset of `keys` either leaves out `y` or is one that does, plus `y`. */
  lemma PowerSetCover(keys: set<char>, y: char, f: set<char> -> set<char>)
    requires y in keys && forall ks :: f(ks) == ks + {y}
    ensures PowerSet(keys) <= PowerSet(keys - {y}) + Image(PowerSet(keys - {y}), f)
  {
    forall ks | ks in PowerSet(keys) ensures ks in PowerSet(keys - {y}) + Image(PowerSet(keys - {y}), f) {
      if y in ks {
        assert ks - {y} in PowerSet(keys - {y}) && ks == f(ks - {y});
      } else {
        assert ks in PowerSet(keys - {y});
      }
    }
  }

  lemma {:induction false} SpaceBound(cells: set<Pos>, keys: set<char>)
    ensures |Space(cells, keys)| <= |cells| * Pow2(|keys|)
    decreases |cells|
  {
    if cells != {} {
      var x :| x in cells;
      SpaceBound(cells - {x}, keys);
      var f := (ks: set<char>) => KeyState(x, ks);
      var here := Image(PowerSet(keys), f);
      PowerSetBound(keys);
      ImageBound(PowerSet(keys), f);
      forall t | t in Space(cells, keys) ensures t in Space(cells - {x}, keys) + here {
        if t.pos != x {
          assert t == KeyState(t.pos, t.keys);
        } else {
          assert t.keys in PowerSet(keys) && t == f(t.keys);
        }
      }
      SubsetSize(Space(cells, keys), Space(cells - {x}, keys) + here);
      UnionSize(Space(cells - {x}, keys), here);
      assert |cells - {x}| == |cells| - 1;
      assert (|cells| - 1) * Pow2(|keys|) + Pow2(|keys|) == |cells| * Pow2(|keys|);
    } else {
      assert Space(cells, keys) == {};
    }
  }

  lemma {:induction false} CellsBound(grid: Grid)
    ensures |Cells(grid)| <= CellTotal(grid)
    decreases |grid|
  {
    if grid != [] {
      var n := |grid| - 1;
      CellsBound(grid[..n]);
      var row := set c | 0 <= c < |grid[n]| :: Pos(n, c);
      RangeImageBound(n, |grid[n]|);
      forall p | p in Cells(grid) ensures p in Cells(grid[..n]) + row {
        if p.r < n {
          assert InGrid(grid[..n], p);
        }
      }
      SubsetSize(Cells(grid), Cells(grid[..n]) + row);
    }
  }

  lemma {:induction false} RangeImageBound(r: int, w: nat)
    ensures |set c | 0 <= c < w :: Pos(r, c)| <= w
  {
    if w > 0 {
      RangeImageBound(r, w - 1);
      assert (set c | 0 <= c < w :: Pos(r, c)) == (set c | 0 <= c < w - 1 :: Pos(r, c)) + {Pos(r, w - 1)};
    }
  }

  /** The search can be in at most (cells + 1) * 2^(keys in the grid) states. */
  lemma StateSpaceBound(grid: Grid, start: Pos)
    ensures |StateSpace(grid, start)| <= (CellTotal(grid) + 1) * Pow2(|GridKeys(grid)|)
  {
    SpaceBound(Cells(grid) + {start}, GridKeys(grid));
    CellsBound(grid);
    SubsetSize(Cells(grid) + {start}, Cells(grid) + {start});
    assert |Cells(grid) + {start}| <= |Cells(grid)| + 1;
    MulMonotone(|Cells(grid) + {start}|, CellTotal(grid) + 1, Pow2(|GridKeys(grid)|), Pow2(|GridKeys(grid)|));
  }

  lemma UnionSize<T>(a: set<T>, b: set<T>)
    ensures |a + b| <= |a| + |b|
  {
    assert a + b == a + (b - a);
    SubsetSize(b - a, b);
  }

  /** A sequence of distinct elements of `s` is no longer than `s` is large. */
  lemma {:induction false} DistinctWithin<T>(h: seq<T>, s: set<T>)
    requires NoDup(h) && forall i :: 0 <= i < |h| ==> h[i] in s
    ensures |h| <= |s|
    decreases |h|
  {
    if h != [] {
      var last := h[|h| - 1];
      DistinctWithin(h[..|h| - 1], s - {last});
    }
  }

  lemma GrowWithinSpace(grid: Grid, start: Pos, s: KeyState, visited: set<KeyState>, visited': set<KeyState>,
                        added: seq<KeyState>)
    requires s in StateSpace(grid, start) && InGrid(grid, s.pos) && visited <= StateSpace(grid, start)
    requires visited' == visited + Elems(added)
    requires forall t :: t in added ==> t.pos in Cells(grid) && t.keys == s.keys + KeyAt(grid, s.pos)
    ensures visited' <= StateSpace(grid, start)
  {
    assert KeyAt(grid, s.pos) <= GridKeys(grid);
    forall t | t in added ensures t in StateSpace(grid, start) {
      assert t == KeyState(t.pos, t.keys);
    }
  }

  /** `get_stateful_path`: the cells of a route from `start` to `end` and the keys picked
      up before its last cell, or two empty sets when no route exists. The search runs
      until its queue is empty, which happens because there are finitely many states. */
  method GetStatefulPath(grid: Grid, start: Pos, end: Pos) returns (cells: set<Pos>, keys: set<char>)
    requires InGrid(grid, start) || start == end
    ensures cells != {} ==> exists route :: KeyRoute(grid, start, end, route) && cells == Elems(route)
                                            && keys == KeysOn(grid, route[..|route| - 1])
    ensures cells == {} ==> keys == {} && forall route :: !KeyRoute(grid, start, end, route)
  {
    var queue := [(KeyState(start, {}), [start])];
    var visited := {KeyState(start, {})};
    ghost var popped: seq<KeyState> := [];
    ghost var space := StateSpace(grid, start);
    InitialInv(grid, start, end);
    assert KeyState(start, {}) in space;
    while queue != []
      invariant SearchInv(grid, start, end, popped, queue, visited)
      invariant visited <= space
      decreases |space - visited|, |queue|
    {
      var s, path := queue[0].0, queue[0].1;
      assert EntryOK(grid, start, queue[0]);
      if s.pos == end {
        assert path[0] in Elems(path);
        return Elems(path), s.keys;
      }
      var queue', visited' := VisitHead(grid, start, end, popped, queue, visited);
      Shrinks(space, visited, visited');
      popped := popped + [s];
      queue, visited := queue', visited';
    }
    ExhaustedMeansNoRoute(grid, start, end, popped, visited);
    return {}, {};
  }

  // solve_maze_graph

  /** The search's cap on popped queue entries. */
  const MaxIterations: nat := 100000

  /** The summary `solve_maze_graph` returns. */
  datatype LegacySolution = LegacySolution(solvable: bool, path: seq<Pos>, pathLength: nat,
                                           keysCollected: set<char>, chainLength: nat)

  /** The upper-case letters on the cells of `ps`, S, E, T, K and D included. */
  function UppersOn(grid: Grid, ps: seq<Pos>): set<char>
  {
    if ps == [] then {}
    else
      var p := ps[|ps| - 1];
      UppersOn(grid, ps[..|ps| - 1]) + (if InGrid(grid, p) && IsUpper(grid[p.r][p.c]) then {grid[p.r][p.c]} else {})
  }

  /** The distinct upper-case letters on `path` whose lower-case letter is among `keys`. */
  function ChainDoors(grid: Grid, path: seq<Pos>, keys: set<char>): set<char>
  {
    set ch | ch in UppersOn(grid, path) && IsUpper(ch) && ToLower(ch) in keys
  }

  lemma ChainDoorsStep(grid: Grid, ps: seq<Pos>, keys: set<char>)
    requires ps != [] && InGrid(grid, ps[|ps| - 1])
    ensures var ch := grid[ps[|ps| - 1].r][ps[|ps| - 1].c];
      var before := ChainDoors(grid, ps[..|ps| - 1], keys);
      && ChainDoors(grid, ps, keys) == before + (if IsUpper(ch) && ToLower(ch) in keys then {ch} else {})
      && (IsUpper(ch) && ch in UppersOn(grid, ps[..|ps| - 1]) ==> ch in before || ToLower(ch) !in keys)
  {
  }

  /** What one more cell of the path adds to the letters seen and to the chain. */
  lemma ChainStep(grid: Grid, path: seq<Pos>, i: nat, keys: set<char>)
    requires i < |path| && InGrid(grid, path[i])
    ensures var ch, p := grid[path[i].r][path[i].c], path[..i];
      UppersOn(grid, path[..i + 1]) == UppersOn(grid, p) + (if IsUpper(ch) then {ch} else {})
      && |ChainDoors(grid, path[..i + 1], keys)|
         == |ChainDoors(grid, p, keys)| + (if IsUpper(ch) && ToLower(ch) in keys && ch !in UppersOn(grid, p) then 1 else 0)
  {
    var ps := path[..i + 1];
    var ch := grid[path[i].r][path[i].c];
    assert ps[..i] == path[..i] && ps[|ps| - 1] == path[i];
    ChainDoorsStep(grid, ps, keys);
    if IsUpper(ch) && ToLower(ch) in keys && ch in UppersOn(grid, path[..i]) {
      assert ChainDoors(grid, ps, keys) == ChainDoors(grid, path[..i], keys);
    }
  }

  /** One cell of the chain count: an upper-case letter not seen before is recorded,
      and counts when its lower-case key is held. */
  method VisitDoor(ch: char, keys: set<char>, usedDoors: set<char>, usedPairs: nat)
    returns (usedDoors': set<char>, usedPairs': nat)
    ensures usedDoors' == usedDoors + (if IsUpper(ch) then {ch} else {})
    ensures usedPairs' == usedPairs + (if IsUpper(ch) && ToLower(ch) in keys && ch !in usedDoors then 1 else 0)
  {
    usedDoors', usedPairs' := usedDoors, usedPairs;
    if 'A' <= ch <= 'Z' {
      if ch !in usedDoors {
        usedDoors' := usedDoors + {ch};
        if ToLower(ch) in keys {
          usedPairs' := usedPairs + 1;
        }
      }
    }
  }

  /** The chain-counting loop of `solve_maze_graph`: each distinct upper-case letter
      on the path counts once, when the held keys include its lower-case letter. */
  method CountChain(grid: Grid, path: seq<Pos>, keys: set<char>) returns (usedPairs: nat)
    requires forall i :: 0 <= i < |path| ==> InGrid(grid, path[i])
    ensures usedPairs == |ChainDoors(grid, path, keys)|
  {
    usedPairs := 0;
    var usedDoors: set<char> := {};
    for i := 0 to |path|
      invariant usedDoors == UppersOn(grid, path[..i])
      invariant usedPairs == |ChainDoors(grid, path[..i], keys)|
    {
      ChainStep(grid, path, i, keys);
      usedDoors, usedPairs := VisitDoor(grid[path[i].r][path[i].c], keys, usedDoors, usedPairs);
    }
    assert path[..|path|] == path;
  }

  /** The popped states are distinct and were all visited. */
  lemma PoppedWithin(grid: Grid, start: Pos, end: Pos, popped: seq<KeyState>, queue: seq<(KeyState, seq<Pos>)>,
                     visited: set<KeyState>)
    requires SearchInv(grid, start, end, popped, queue, visited)
    ensures NoDup(popped) && forall i :: 0 <= i < |popped| ==> popped[i] in visited
  {
    var h := popped + StatesOf(queue);
    assert forall i :: 0 <= i < |popped| ==> popped[i] == h[i];
  }

  /** Every cell of a route from an in-grid start is in the grid. */
  lemma RouteInGrid(grid: Grid, start: Pos, end: Pos, path: seq<Pos>)
    requires KeyRoute(grid, start, end, path) && InGrid(grid, start)
    ensures forall i :: 0 <= i < |path| ==> InGrid(grid, path[i])
  {
    forall i | 0 < i < |path| ensures InGrid(grid, path[i]) {
      assert RouteStepAt(grid, path, i - 1);
    }
  }

  /** One pop of `solve_maze_graph` that is not the goal: the head state is expanded,
      and the search invariant holds with it appended to the popped states. */
  method VisitHead(grid: Grid, ghost sPos: Pos, ghost ePos: Pos, ghost popped: seq<KeyState>,
                   queue: seq<(KeyState, seq<Pos>)>, visited: set<KeyState>)
    returns (queue': seq<(KeyState, seq<Pos>)>, visited': set<KeyState>)
    requires (InGrid(grid, sPos) || sPos == ePos) && SearchInv(grid, sPos, ePos, popped, queue, visited)
    requires visited <= StateSpace(grid, sPos)
    requires queue != [] && queue[0].0.pos != ePos
    ensures SearchInv(grid, sPos, ePos, popped + [queue[0].0], queue', visited')
    ensures visited <= visited' <= StateSpace(grid, sPos)
    ensures visited' == visited ==> |queue'| == |queue| - 1
  {
    var s, path := queue[0].0, queue[0].1;
    assert EntryOK(grid, sPos, queue[0]);
    EntryInGrid(grid, sPos, ePos, queue[0]);
    ghost var added;
    queue', visited', added := ExpandState(grid, sPos, s, path, queue[1..], visited);
    SearchStep(grid, sPos, ePos, popped, queue, visited, s.keys + KeyAt(grid, s.pos), queue', visited', added);
    assert s in visited;
    GrowWithinSpace(grid, sPos, s, visited, visited', added);
  }

  /** `solve_maze_graph`: a breadth-first search over (cell, keys) states capped at
      100000 pops, then the count of distinct upper-case letters on the route whose
      key was held at the end. `popped` lists the states expanded, in order. */
  method SolveMazeGraph(grid: Grid, sPos: Pos, ePos: Pos) returns (sol: LegacySolution, ghost popped: seq<KeyState>)
    requires InGrid(grid, sPos)
    ensures |popped| <= MaxIterations && NoDup(popped)
    ensures sol.pathLength == |sol.path|
    ensures sol.solvable ==> KeyRoute(grid, sPos, ePos, sol.path)
                             && sol.keysCollected == KeysOn(grid, sol.path[..|sol.path| - 1])
    ensures !sol.solvable ==> sol.path == [] && sol.keysCollected == {}
    ensures !sol.solvable && |popped| < MaxIterations ==> forall path :: !KeyRoute(grid, sPos, ePos, path)
    ensures |popped| <= |StateSpace(grid, sPos)|
    ensures sol.chainLength == |ChainDoors(grid, sol.path, sol.keysCollected)|
  {
    var queue := [(KeyState(sPos, {}), [sPos])];
    var visited := {KeyState(sPos, {})};
    var finalPath: seq<Pos> := [];
    var finalKeys: set<char> := {};
    var solved := false;
    var iterCount := 0;
    popped := [];
    ghost var space := StateSpace(grid, sPos);
    InitialInv(grid, sPos, ePos);
    assert KeyState(sPos, {}) in space;
    while queue != [] && iterCount < MaxIterations
      invariant SearchInv(grid, sPos, ePos, popped, queue, visited)
      invariant visited <= space
      invariant iterCount == |popped| <= MaxIterations
      decreases MaxIterations - iterCount
    {
      iterCount := iterCount + 1;
      var s, path := queue[0].0, queue[0].1;
      assert EntryOK(grid, sPos, queue[0]);
      if s.pos == ePos {
        finalPath, finalKeys, solved := path, s.keys, true;
        break;
      }
      queue, visited := VisitHead(grid, sPos, ePos, popped, queue, visited);
      popped := popped + [s];
    }
    if !solved {
      if queue == [] {
        ExhaustedMeansNoRoute(grid, sPos, ePos, popped, visited);
      }
    } else {
      RouteInGrid(grid, sPos, ePos, finalPath);
    }
    PoppedWithin(grid, sPos, ePos, popped, queue, visited);
    DistinctWithin(popped, space);
    var usedPairs := CountChain(grid, finalPath, finalKeys);
    sol := LegacySolution(solved, finalPath, |finalPath|, finalKeys, usedPairs);
  }

  /** Different doors need different keys, so the chain never exceeds the keys held,
      nor the distinct upper-case letters on the route. */
  lemma ChainBounds(grid: Grid, path: seq<Pos>, keys: set<char>)
    ensures |ChainDoors(grid, path, keys)| <= |keys|
    ensures |ChainDoors(grid, path, keys)| <= |UppersOn(grid, path)|
  {
    Pathfinding.LowerInjective(ChainDoors(grid, path, keys), keys);
    SubsetSize(ChainDoors(grid, path, keys), UppersOn(grid, path));
  }

  /** Every key a walk collects lies somewhere in the grid. */
  lemma {:induction false} KeysOnWithin(grid: Grid, ps: seq<Pos>)
    ensures KeysOn(grid, ps) <= GridKeys(grid)
  {
    if ps != [] {
      KeysOnWithin(grid, ps[..|ps| - 1]);
      var p := ps[|ps| - 1];
      if InGrid(grid, p) && IsLower(grid[p.r][p.c]) {
        assert grid[p.r][p.c] in GridKeys(grid);
      }
    }
  }

  /** Keys are never dropped: a longer prefix holds every key a shorter one does. */
  lemma {:induction false} KeysOnGrow(grid: Grid, ps: seq<Pos>, i: nat, j: nat)
    requires i <= j <= |ps|
    ensures KeysOn(grid, ps[..i]) <= KeysOn(grid, ps[..j])
    decreases j - i
  {
    if i < j {
      KeysOnGrow(grid, ps, i, j - 1);
      assert ps[..j][..j - 1] == ps[..j - 1];
    }
  }

  /** The key on a cell of the walk is among the keys the walk collects. */
  lemma {:induction false} KeysOnHas(grid: Grid, ps: seq<Pos>, k: nat)
    requires k < |ps| && InGrid(grid, ps[k]) && IsLower(grid[ps[k].r][ps[k].c])
    ensures grid[ps[k].r][ps[k].c] in KeysOn(grid, ps)
  {
    if k < |ps| - 1 {
      KeysOnHas(grid, ps[..|ps| - 1], k);
    }
  }

  /** An upper-case letter on a cell of the walk is among its upper-case letters. */
  lemma {:induction false} UppersOnHas(grid: Grid, ps: seq<Pos>, k: nat)
    requires k < |ps| && InGrid(grid, ps[k]) && IsUpper(grid[ps[k].r][ps[k].c])
    ensures grid[ps[k].r][ps[k].c] in UppersOn(grid, ps)
  {
    if k < |ps| - 1 {
      UppersOnHas(grid, ps[..|ps| - 1], k);
    }
  }

  /** A route extends by one step to a neighbour it may enter with the keys it has collected. */
  lemma ExtendRoute(grid: Grid, start: Pos, path: seq<Pos>, q: Pos) returns (path': seq<Pos>)
    requires |path| >= 1 && KeyRoute(grid, start, path[|path| - 1], path)
    requires Adjacent(path[|path| - 1], q) && Enterable(grid, q, KeysOn(grid, path))
    ensures path' == path + [q] && KeyRoute(grid, start, q, path')
    ensures KeysOn(grid, path') == KeysOn(grid, path) + KeyAt(grid, q)
  {
    path' := path + [q];
    assert path'[..|path|] == path;
    forall i | 0 <= i < |path'| - 1 ensures RouteStepAt(grid, path', i) {
      if i < |path| - 1 {
        assert RouteStepAt(grid, path, i);
        assert path'[..i + 1] == path[..i + 1];
      }
    }
  }
}
