/** The three mazes of the multi-key test script, stated on the rows the legacy parser
    keeps from them, and what the legacy evaluator reports for each. */
module MultiKeyScenarios {
  import opened MazeCommon
  import opened MazeParsing
  import opened LegacySearch
  import opened LegacyEvaluator

  /** Key a, then door A, then E below the door: the only way through. */
  const SimpleChain: Grid := ["#######", "#S a A#", "#####E#", "#######"]

  /** The door stands between S and its key. */
  const DoorFirst: Grid := ["#######", "#S A a#", "#####E#", "#######"]

  /** Two keys, each before its door, and E below the second door. */
  const DoubleChain: Grid := ["###########", "#S a A b B#", "#########E#", "###########"]

  // ---------------------------------------------------------------------
  // Corridors.

  /** Row 1 is a corridor up to column `k`: walled above, below and at its left end. */
  predicate Corridor(grid: Grid, k: nat)
  {
    |grid| >= 3 && |grid[0]| > k && |grid[1]| > k && |grid[2]| > k && grid[1][0] == '#'
    && forall c :: 0 <= c < k ==> grid[0][c] == '#' && grid[2][c] == '#'
  }

  predicate InCorridor(p: Pos, k: nat) { p.r == 1 && 0 < p.c < k }

  /** A route starting in the corridor stays in it until it first stands on its end cell (1, k). */
  lemma {:induction false} CorridorPrefix(grid: Grid, route: seq<Pos>, k: nat, i: nat)
    requires Corridor(grid, k) && |route| >= 1 && InCorridor(route[0], k)
    requires forall j :: 0 <= j < |route| - 1 ==> RouteStepAt(grid, route, j)
    requires i < |route|
    ensures (forall j :: 0 <= j <= i ==> InCorridor(route[j], k))
         || (exists j :: 0 < j <= i && route[j] == Pos(1, k) && forall h :: 0 <= h < j ==> InCorridor(route[h], k))
  {
    if i > 0 {
      CorridorPrefix(grid, route, k, i - 1);
      if forall j :: 0 <= j <= i - 1 ==> InCorridor(route[j], k) {
        assert RouteStepAt(grid, route, i - 1);
        var p, q := route[i - 1], route[i];
        assert InGrid(grid, q) && grid[q.r][q.c] != '#';
        if q == Pos(1, k) {
          assert 0 < i <= i && route[i] == Pos(1, k) && forall h :: 0 <= h < i ==> InCorridor(route[h], k);
        } else {
          assert q.r != 0 && q.r != 2 && q != Pos(1, 0);
          assert InCorridor(q, k);
          assert forall j :: 0 <= j <= i ==> InCorridor(route[j], k);
        }
      }
    }
  }

  /** A route from the corridor to a cell outside row 1 passes (1, k), having held
      only corridor cells before it. */
  lemma CorridorExit(grid: Grid, route: seq<Pos>, k: nat) returns (j: nat)
    requires Corridor(grid, k) && |route| >= 1 && InCorridor(route[0], k) && route[|route| - 1].r != 1
    requires forall j :: 0 <= j < |route| - 1 ==> RouteStepAt(grid, route, j)
    ensures 0 < j < |route| - 1 && route[j] == Pos(1, k)
    ensures forall h :: 0 <= h < j ==> InCorridor(route[h], k)
  {
    CorridorPrefix(grid, route, k, |route| - 1);
    assert !InCorridor(route[|route| - 1], k);
    j :| 0 < j <= |route| - 1 && route[j] == Pos(1, k) && forall h :: 0 <= h < j ==> InCorridor(route[h], k);
  }

  /** A door at the corridor's end on a route out of row 1 is a chain link: its key is
      collected on the way and the door itself is crossed. */
  lemma DoorIsLink(grid: Grid, start: Pos, end: Pos, route: seq<Pos>, k: nat)
    requires Corridor(grid, k) && InCorridor(start, k) && end.r != 1
    requires KeyRoute(grid, start, end, route)
    requires IsLegacyDoor(grid[1][k])
    ensures grid[1][k] in ChainDoors(grid, route, KeysOn(grid, route[..|route| - 1]))
  {
    var j := CorridorExit(grid, route, k);
    assert RouteStepAt(grid, route, j - 1);
    KeysOnGrow(grid, route, j, |route| - 1);
    UppersOnHas(grid, route, j);
  }

  /** Every link's lower-case letter is among the keys held. */
  lemma ChainLinksHaveKeys(grid: Grid, route: seq<Pos>, keys: set<char>, allowed: set<char>)
    requires keys <= allowed
    ensures forall ch :: ch in ChainDoors(grid, route, keys) ==> IsUpper(ch) && ToLower(ch) in allowed
  {
  }

  /** The keys a corridor route collects before the corridor's end are none when the
      corridor holds no key. */
  lemma {:induction false} NoKeysInCorridor(grid: Grid, ps: seq<Pos>, k: nat)
    requires Corridor(grid, k)
    requires forall c :: 0 < c < k ==> !IsLower(grid[1][c])
    requires forall h :: 0 <= h < |ps| ==> InCorridor(ps[h], k)
    ensures KeysOn(grid, ps) == {}
  {
    if ps != [] {
      NoKeysInCorridor(grid, ps[..|ps| - 1], k);
    }
  }

  /** A corridor holding no key, closed by a door, cannot be left: its door is never opened. */
  lemma LockedCorridor(grid: Grid, start: Pos, end: Pos, route: seq<Pos>, k: nat)
    requires Corridor(grid, k) && InCorridor(start, k) && end.r != 1 && IsLegacyDoor(grid[1][k])
    requires forall c :: 0 < c < k ==> !IsLower(grid[1][c])
    ensures !KeyRoute(grid, start, end, route)
  {
    if KeyRoute(grid, start, end, route) {
      var j := CorridorExit(grid, route, k);
      assert RouteStepAt(grid, route, j - 1);
      assert route[..j - 1 + 1] == route[..j];
      NoKeysInCorridor(grid, route[..j], k);
    }
  }

  lemma {:induction false} CellTotalUniform(grid: Grid, w: nat)
    requires forall k :: 0 <= k < |grid| ==> |grid[k]| == w
    ensures CellTotal(grid) == |grid| * w
  {
    if grid != [] {
      CellTotalUniform(grid[..|grid| - 1], w);
    }
  }

  // ---------------------------------------------------------------------
  // Test 1: a simple chain.

  lemma SimpleChainEnds()
    ensures FirstPosition(SimpleChain, 'S') == Pos(1, 1) && FirstPosition(SimpleChain, 'E') == Pos(2, 5)
  {
    FirstPositionByRows(SimpleChain, 'S', Pos(1, 1));
    FirstPositionByRows(SimpleChain, 'E', Pos(2, 5));
  }

  lemma SimpleChainKeys()
    ensures GridKeys(SimpleChain) == {'a'}
  {
    assert SimpleChain[1][3] == 'a';
    assert forall r, c :: 0 <= r < |SimpleChain| && 0 <= c < |SimpleChain[r]| && IsLower(SimpleChain[r][c]) ==>
      SimpleChain[r][c] in {'a'};
  }

  /** The search cannot reach its iteration cap on this maze. */
  lemma SimpleChainSmall()
    ensures |StateSpace(SimpleChain, Pos(1, 1))| < MaxIterations
  {
    SimpleChainKeys();
    StateSpaceBound(SimpleChain, Pos(1, 1));
    CellTotalUniform(SimpleChain, 7);
  }

  /** S, the key, the door and E, one cell at a time. */
  lemma SimpleChainSolvable() returns (route: seq<Pos>)
    ensures KeyRoute(SimpleChain, Pos(1, 1), Pos(2, 5), route)
  {
    var grid := SimpleChain;
    route := [Pos(1, 1)];
    assert KeysOn(grid, route) == {};
    route := ExtendRoute(grid, Pos(1, 1), route, Pos(1, 2));
    route := ExtendRoute(grid, Pos(1, 1), route, Pos(1, 3));
    assert 'a' in KeysOn(grid, route);
    route := ExtendRoute(grid, Pos(1, 1), route, Pos(1, 4));
    route := ExtendRoute(grid, Pos(1, 1), route, Pos(1, 5));
    route := ExtendRoute(grid, Pos(1, 1), route, Pos(2, 5));
  }

  lemma SimpleChainCorridor()
    ensures Corridor(SimpleChain, 5) && IsLegacyDoor(SimpleChain[1][5]) && SimpleChain[1][5] == 'A'
  {
  }

  /** Every route from S to E uses the one key/door pair. */
  lemma SimpleChainEveryRoute(route: seq<Pos>)
    requires KeyRoute(SimpleChain, Pos(1, 1), Pos(2, 5), route)
    ensures ChainDoors(SimpleChain, route, KeysOn(SimpleChain, route[..|route| - 1])) == {'A'}
  {
    var keys := KeysOn(SimpleChain, route[..|route| - 1]);
    SimpleChainCorridor();
    DoorIsLink(SimpleChain, Pos(1, 1), Pos(2, 5), route, 5);
    SimpleChainKeys();
    KeysOnWithin(SimpleChain, route[..|route| - 1]);
    ChainLinksHaveKeys(SimpleChain, route, keys, {'a'});
  }

  /** The search cannot hit its cap, some route reaches E, and every route crosses the one pair. */
  lemma SimpleChainRoutes() returns (known: seq<Pos>)
    ensures |StateSpace(SimpleChain, FirstPosition(SimpleChain, 'S'))| < MaxIterations
    ensures KeyRoute(SimpleChain, FirstPosition(SimpleChain, 'S'), FirstPosition(SimpleChain, 'E'), known)
    ensures forall route :: KeyRoute(SimpleChain, FirstPosition(SimpleChain, 'S'), FirstPosition(SimpleChain, 'E'), route) ==>
              ChainDoors(SimpleChain, route, KeysOn(SimpleChain, route[..|route| - 1])) == {'A'}
  {
    SimpleChainEnds();
    SimpleChainSmall();
    known := SimpleChainSolvable();
    forall route | KeyRoute(SimpleChain, Pos(1, 1), Pos(2, 5), route)
      ensures ChainDoors(SimpleChain, route, KeysOn(SimpleChain, route[..|route| - 1])) == {'A'}
    {
      SimpleChainEveryRoute(route);
    }
  }

  /** Test 1: the maze is solved and earns the completion bonus and 50 chain points. */
  lemma SimpleChainGraded(log2: nat -> real, sqrt: nat -> real, g: LegacyGrade)
    requires g.LegacyGraded? && LegacyGradedFacts(SimpleChain, log2, sqrt, g)
    ensures g.solvable && g.completion == 50 && g.chainLength == 1 && g.complexity == 50
  {
    var known := SimpleChainRoutes();
    OneDoor();
    LegacyGradedChain(SimpleChain, log2, sqrt, g, known, {'A'});
  }

  // ---------------------------------------------------------------------
  // Test 2: the door before its key.

  lemma DoorFirstEnds()
    ensures FirstPosition(DoorFirst, 'S') == Pos(1, 1) && FirstPosition(DoorFirst, 'E') == Pos(2, 5)
  {
    FirstPositionByRows(DoorFirst, 'S', Pos(1, 1));
    FirstPositionByRows(DoorFirst, 'E', Pos(2, 5));
  }

  lemma DoorFirstCorridor()
    ensures Corridor(DoorFirst, 3) && IsLegacyDoor(DoorFirst[1][3]) && DoorFirst[1][3] == 'A'
    ensures forall c :: 0 < c < 3 ==> !IsLower(DoorFirst[1][c])
  {
  }

  /** No route reaches E: the door at (1, 3) has to be crossed before its key can be picked up. */
  lemma DoorFirstUnsolvable(route: seq<Pos>)
    ensures !KeyRoute(DoorFirst, Pos(1, 1), Pos(2, 5), route)
  {
    DoorFirstCorridor();
    LockedCorridor(DoorFirst, Pos(1, 1), Pos(2, 5), route, 3);
  }

  /** Test 2: the maze is reported unsolvable and earns neither completion nor chain points. */
  lemma DoorFirstGraded(log2: nat -> real, sqrt: nat -> real, g: LegacyGrade)
    requires g.LegacyGraded? && LegacyGradedFacts(DoorFirst, log2, sqrt, g)
    ensures !g.solvable && g.completion == 0 && g.complexity == 0
  {
    DoorFirstEnds();
    forall route ensures !KeyRoute(DoorFirst, Pos(1, 1), Pos(2, 5), route) {
      DoorFirstUnsolvable(route);
    }
    LegacyUnsolved(DoorFirst, log2, sqrt, g);
  }

  /** The door sets the scenarios count, kept out of the graded lemmas' contexts. */
  lemma OneDoor()
    ensures |{'A'}| == 1
  {
  }

  lemma TwoDoors()
    ensures |{'A', 'B'}| == 2
  {
  }

  // ---------------------------------------------------------------------
  // Test 3: two pairs in a row.

  lemma DoubleChainEnds()
    ensures FirstPosition(DoubleChain, 'S') == Pos(1, 1) && FirstPosition(DoubleChain, 'E') == Pos(2, 9)
  {
    FirstPositionByRows(DoubleChain, 'S', Pos(1, 1));
    FirstPositionByRows(DoubleChain, 'E', Pos(2, 9));
  }

  lemma DoubleChainKeys()
    ensures GridKeys(DoubleChain) == {'a', 'b'}
  {
    assert DoubleChain[1][3] == 'a' && DoubleChain[1][7] == 'b';
    assert forall r, c :: 0 <= r < |DoubleChain| && 0 <= c < |DoubleChain[r]| && IsLower(DoubleChain[r][c]) ==>
      DoubleChain[r][c] in {'a', 'b'};
  }

  /** The search cannot reach its iteration cap on this maze. */
  lemma DoubleChainSmall()
    ensures |StateSpace(DoubleChain, Pos(1, 1))| < MaxIterations
  {
    DoubleChainKeys();
    StateSpaceBound(DoubleChain, Pos(1, 1));
    CellTotalUniform(DoubleChain, 11);
  }

  /** Along the corridor, picking up each key before its door, then down to E. */
  lemma DoubleChainSolvable() returns (route: seq<Pos>)
    ensures KeyRoute(DoubleChain, Pos(1, 1), Pos(2, 9), route)
  {
    var grid := DoubleChain;
    route := [Pos(1, 1)];
    assert KeysOn(grid, route) == {};
    route := ExtendRoute(grid, Pos(1, 1), route, Pos(1, 2));
    route := ExtendRoute(grid, Pos(1, 1), route, Pos(1, 3));
    assert 'a' in KeysOn(grid, route);
    route := ExtendRoute(grid, Pos(1, 1), route, Pos(1, 4));
    route := ExtendRoute(grid, Pos(1, 1), route, Pos(1, 5));
    route := ExtendRoute(grid, Pos(1, 1), route, Pos(1, 6));
    route := ExtendRoute(grid, Pos(1, 1), route, Pos(1, 7));
    assert 'b' in KeysOn(grid, route);
    route := ExtendRoute(grid, Pos(1, 1), route, Pos(1, 8));
    route := ExtendRoute(grid, Pos(1, 1), route, Pos(1, 9));
    route := ExtendRoute(grid, Pos(1, 1), route, Pos(2, 9));
  }

  lemma DoubleChainCorridor()
    ensures Corridor(DoubleChain, 5) && IsLegacyDoor(DoubleChain[1][5]) && DoubleChain[1][5] == 'A'
    ensures Corridor(DoubleChain, 9) && IsLegacyDoor(DoubleChain[1][9]) && DoubleChain[1][9] == 'B'
  {
  }

  /** Every route from S to E uses both key/door pairs. */
  lemma DoubleChainEveryRoute(route: seq<Pos>)
    requires KeyRoute(DoubleChain, Pos(1, 1), Pos(2, 9), route)
    ensures ChainDoors(DoubleChain, route, KeysOn(DoubleChain, route[..|route| - 1])) == {'A', 'B'}
  {
    var keys := KeysOn(DoubleChain, route[..|route| - 1]);
    DoubleChainCorridor();
    DoorIsLink(DoubleChain, Pos(1, 1), Pos(2, 9), route, 5);
    DoorIsLink(DoubleChain, Pos(1, 1), Pos(2, 9), route, 9);
    DoubleChainKeys();
    KeysOnWithin(DoubleChain, route[..|route| - 1]);
    ChainLinksHaveKeys(DoubleChain, route, keys, {'a', 'b'});
  }

  /** The search cannot hit its cap, some route reaches E, and every route crosses both pairs. */
  lemma DoubleChainRoutes() returns (known: seq<Pos>)
    ensures |StateSpace(DoubleChain, FirstPosition(DoubleChain, 'S'))| < MaxIterations
    ensures KeyRoute(DoubleChain, FirstPosition(DoubleChain, 'S'), FirstPosition(DoubleChain, 'E'), known)
    ensures forall route :: KeyRoute(DoubleChain, FirstPosition(DoubleChain, 'S'), FirstPosition(DoubleChain, 'E'), route) ==>
              ChainDoors(DoubleChain, route, KeysOn(DoubleChain, route[..|route| - 1])) == {'A', 'B'}
  {
    DoubleChainEnds();
    DoubleChainSmall();
    known := DoubleChainSolvable();
    forall route | KeyRoute(DoubleChain, Pos(1, 1), Pos(2, 9), route)
      ensures ChainDoors(DoubleChain, route, KeysOn(DoubleChain, route[..|route| - 1])) == {'A', 'B'}
    {
      DoubleChainEveryRoute(route);
    }
  }

  /** Test 3: the maze is solved with a chain of two pairs, worth 100 points. */
  lemma DoubleChainGraded(log2: nat -> real, sqrt: nat -> real, g: LegacyGrade)
    requires g.LegacyGraded? && LegacyGradedFacts(DoubleChain, log2, sqrt, g)
    ensures g.solvable && g.completion == 50 && g.chainLength == 2 && g.complexity == 100
  {
    var known := DoubleChainRoutes();
    TwoDoors();
    LegacyGradedChain(DoubleChain, log2, sqrt, g, known, {'A', 'B'});
  }

  // ---------------------------------------------------------------------
  // The three checks of the test script, run through the evaluator.

  method GradeSimpleChain(log2: nat -> real, sqrt: nat -> real) returns (g: LegacyGrade)
    ensures g.LegacyGraded? && g.solvable && g.complexity >= 50 && g.completion == 50
  {
    assert SimpleChain[1][1] == 'S';
    g := LegacyGradeGrid(SimpleChain, log2, sqrt);
    SimpleChainGraded(log2, sqrt, g);
  }

  method GradeDoorFirst(log2: nat -> real, sqrt: nat -> real) returns (g: LegacyGrade)
    ensures g.LegacyGraded? && !g.solvable
  {
    assert DoorFirst[1][1] == 'S';
    g := LegacyGradeGrid(DoorFirst, log2, sqrt);
    DoorFirstGraded(log2, sqrt, g);
  }

  method GradeDoubleChain(log2: nat -> real, sqrt: nat -> real) returns (g: LegacyGrade)
    ensures g.LegacyGraded? && g.chainLength == 2
  {
    assert DoubleChain[1][1] == 'S';
    g := LegacyGradeGrid(DoubleChain, log2, sqrt);
    DoubleChainGraded(log2, sqrt, g);
  }
}
