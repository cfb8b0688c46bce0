/** The three analyses the strategic evaluator runs on a solved (or unsolved) maze:
    traps next to the route, creative use of strategic elements, and a structural
    route-complexity estimate. */
module Scoring {
  import opened MazeCommon
  import opened MazeModel
  import opened Pathfinding

  // ---------------------------------------------------------------------
  // count_adjacent_traps

  /** 1 when `p` is a cell of the grid holding a trap 'T', else 0. */
  function TrapAt(grid: Grid, p: Pos): nat
  {
    if InGrid(grid, p) && grid[p.r][p.c] == 'T' then 1 else 0
  }

  /** Traps among the first `d` neighbours of `p`, in the evaluator's direction order. */
  function TrapsAround(grid: Grid, p: Pos, d: nat): (n: nat)
    requires d <= 4
    ensures n <= d
  {
    if d == 0 then 0 else TrapsAround(grid, p, d - 1) + TrapAt(grid, Shift(p, Directions[d - 1]))
  }

  predicate NextToTrap(grid: Grid, p: Pos)
  {
    exists d :: 0 <= d < 4 && TrapAt(grid, Shift(p, Directions[d])) == 1
  }

  ghost function PickCell(cells: set<Pos>): Pos
    requires cells != {}
  {
    var p :| p in cells; p
  }

  /** Each cell of the set contributes the traps next to it; a trap next to `k`
      cells is counted `k` times. */
  ghost function TrapSum(grid: Grid, cells: set<Pos>): nat
    decreases |cells|
  {
    if cells == {} then 0
    else
      var p := PickCell(cells);
      TrapsAround(grid, p, 4) + TrapSum(grid, cells - {p})
  }

  /** The sum does not depend on the order the cells are visited in. */
  lemma {:induction false} TrapSumRemove(grid: Grid, cells: set<Pos>, p: Pos)
    requires p in cells
    ensures TrapSum(grid, cells) == TrapsAround(grid, p, 4) + TrapSum(grid, cells - {p})
    decreases |cells|
  {
    var q := PickCell(cells);
    if q != p {
      TrapSumRemove(grid, cells - {q}, p);
      TrapSumRemove(grid, cells - {p}, q);
      assert cells - {q} - {p} == cells - {p} - {q};
    }
  }

  /** `count_adjacent_traps`: the path arrives as a set, so a cell visited twice counts once. */
  method CountAdjacentTraps(grid: Grid, validPath: set<Pos>) returns (adjacentTraps: nat)
    ensures adjacentTraps == TrapSum(grid, validPath)
  {
    adjacentTraps := 0;
    var remaining := validPath;
    while remaining != {}
      invariant adjacentTraps + TrapSum(grid, remaining) == TrapSum(grid, validPath)
      decreases |remaining|
    {
      var p :| p in remaining;
      var around := TrapsNear(grid, p);
      TrapSumRemove(grid, remaining, p);
      adjacentTraps := adjacentTraps + around;
      remaining := remaining - {p};
    }
  }

  /** The inner loop over the four directions. */
  method TrapsNear(grid: Grid, p: Pos) returns (around: nat)
    ensures around == TrapsAround(grid, p, 4)
  {
    around := 0;
    for d := 0 to 4
      invariant around == TrapsAround(grid, p, d)
    {
      var n := Shift(p, Directions[d]);
      if 0 <= n.r < |grid| && 0 <= n.c < |grid[n.r]| && grid[n.r][n.c] == 'T' {
        around := around + 1;
      }
    }
  }

  /** Every cell has four neighbours, so the count is at most four per cell. */
  lemma {:induction false} TrapSumBound(grid: Grid, cells: set<Pos>)
    ensures TrapSum(grid, cells) <= 4 * |cells|
    decreases |cells|
  {
    if cells != {} {
      TrapSumBound(grid, cells - {PickCell(cells)});
    }
  }

  lemma TrapsAroundZero(grid: Grid, p: Pos)
    ensures TrapsAround(grid, p, 4) == 0 <==> !NextToTrap(grid, p)
  {
    assert TrapsAround(grid, p, 1) == TrapAt(grid, Shift(p, Directions[0]));
    assert TrapsAround(grid, p, 2) == TrapsAround(grid, p, 1) + TrapAt(grid, Shift(p, Directions[1]));
    assert TrapsAround(grid, p, 3) == TrapsAround(grid, p, 2) + TrapAt(grid, Shift(p, Directions[2]));
    assert TrapsAround(grid, p, 4) == TrapsAround(grid, p, 3) + TrapAt(grid, Shift(p, Directions[3]));
  }

  /** No trap is counted exactly when no cell of the set touches a trap. */
  lemma {:induction false} TrapSumZeroIff(grid: Grid, cells: set<Pos>)
    ensures TrapSum(grid, cells) == 0 <==> forall p :: p in cells ==> !NextToTrap(grid, p)
    decreases |cells|
  {
    if cells != {} {
      var q := PickCell(cells);
      TrapSumZeroIff(grid, cells - {q});
      TrapsAroundZero(grid, q);
    }
  }

  /** Counting two disjoint sets of cells adds up. */
  lemma {:induction false} TrapSumUnion(grid: Grid, a: set<Pos>, b: set<Pos>)
    requires a !! b
    ensures TrapSum(grid, a + b) == TrapSum(grid, a) + TrapSum(grid, b)
    decreases |a|
  {
    if a == {} {
      assert a + b == b;
    } else {
      var p := PickCell(a);
      TrapSumRemove(grid, a + b, p);
      TrapSumUnion(grid, a - {p}, b);
      assert (a + b) - {p} == (a - {p}) + b;
    }
  }

  /** A single cell counts the traps among its four neighbours. */
  lemma TrapSumSingle(grid: Grid, p: Pos)
    ensures TrapSum(grid, {p}) == TrapsAround(grid, p, 4)
  {
    TrapSumRemove(grid, {p}, p);
    assert {p} - {p} == {};
  }

  // ---------------------------------------------------------------------
  // analyze_strategic_innovation

  datatype Innovation = Innovation(
    score: nat,
    teleportersUsed: nat,
    switchesActivated: nat,
    bonusExitsReached: nat,
    conditionalDoorsUsed: nat)

  /** `set(solution['path'])`. */
  function PathCells(path: seq<Pos>): set<Pos> { set p | p in path }

  /** The letters of a table whose recorded cell lies in `cells`. */
  function Reached(table: map<char, Pos>, cells: set<Pos>): set<char>
  {
    set ch | ch in table && table[ch] in cells
  }

  function TeleportPoints(teleports: nat): nat { if teleports > 0 then Min(15 * teleports, 60) else 0 }

  function SwitchPoints(switches: nat): nat { if switches > 0 then Min(20 * switches, 80) else 0 }

  /** What the innovation analysis reports: capped points for teleports and switch
      presses counted by the search, and, on a solved maze only, 25 per bonus exit
      and 30 per conditional door whose recorded cell lies on the route. */
  function InnovationOf(maze: StrategicMaze, sol: SolveResult): Innovation
  {
    var t, s := sol.usage.teleports, sol.usage.switchesActivated;
    var b := if sol.solvable then |Reached(maze.bonusExits, PathCells(sol.path))| else 0;
    var x := if sol.solvable then |Reached(maze.conditionalDoors, PathCells(sol.path))| else 0;
    Innovation(TeleportPoints(t) + SwitchPoints(s) + 25 * b + 30 * x, t, s, b, x)
  }

  /** One pass over a letter table, counting entries whose cell is in `cells`. */
  method CountReached(table: map<char, Pos>, cells: set<Pos>) returns (n: nat)
    ensures n == |Reached(table, cells)|
  {
    n := 0;
    var remaining := table.Keys;
    while remaining != {}
      invariant remaining <= table.Keys
      invariant n == |Reached(table, cells) - remaining|
      decreases |remaining|
    {
      var ch :| ch in remaining;
      ReachedStep(table, cells, remaining, ch);
      if table[ch] in cells {
        n := n + 1;
      }
      remaining := remaining - {ch};
    }
    assert Reached(table, cells) - remaining == Reached(table, cells);
  }

  lemma ReachedStep(table: map<char, Pos>, cells: set<Pos>, remaining: set<char>, ch: char)
    requires ch in remaining && remaining <= table.Keys
    ensures |Reached(table, cells) - (remaining - {ch})|
      == |Reached(table, cells) - remaining| + (if table[ch] in cells then 1 else 0)
  {
    var before := Reached(table, cells) - remaining;
    if table[ch] in cells {
      assert Reached(table, cells) - (remaining - {ch}) == before + {ch};
    } else {
      assert Reached(table, cells) - (remaining - {ch}) == before;
    }
  }

  /** `analyze_strategic_innovation`. */
  method AnalyzeStrategicInnovation(maze: StrategicMaze, sol: SolveResult) returns (r: Innovation)
    ensures r == InnovationOf(maze, sol)
  {
    var score := 0;
    r := Innovation(0, 0, 0, 0, 0);
    var teleportCount := sol.usage.teleports;
    if teleportCount > 0 {
      score := score + Min(teleportCount * 15, 60);
      r := r.(teleportersUsed := teleportCount);
    }
    var switchCount := sol.usage.switchesActivated;
    if switchCount > 0 {
      score := score + Min(switchCount * 20, 80);
      r := r.(switchesActivated := switchCount);
    }
    if sol.solvable {
      var pathSet := set p | p in sol.path;
      var exits := CountReached(maze.bonusExits, pathSet);
      score := score + 25 * exits;
      var doors := CountReached(maze.conditionalDoors, pathSet);
      score := score + 30 * doors;
      r := r.(bonusExitsReached := exits, conditionalDoorsUsed := doors);
    }
    r := r.(score := score);
  }

  lemma ReachedSmall(table: map<char, Pos>, cells: set<Pos>)
    ensures |Reached(table, cells)| <= |table|
  {
    SubsetCardinality(Reached(table, cells), table.Keys);
  }

  /** With at most three bonus exits and three conditional doors, the innovation
      score never exceeds 60 + 80 + 3 * 25 + 3 * 30 = 305. */
  lemma InnovationBounded(maze: StrategicMaze, sol: SolveResult)
    requires maze.Valid()
    ensures var inn := InnovationOf(maze, sol);
      inn.bonusExitsReached <= 3 && inn.conditionalDoorsUsed <= 3 && inn.score <= 305
  {
    LetterTablesSmall(maze.grid, maze.cols);
    ReachedSmall(maze.bonusExits, PathCells(sol.path));
    ReachedSmall(maze.conditionalDoors, PathCells(sol.path));
  }

  /** An unsolved maze scores only for the search's teleport and switch counters. */
  lemma InnovationUnsolved(maze: StrategicMaze, sol: SolveResult)
    requires !sol.solvable
    ensures InnovationOf(maze, sol).score <= 140
    ensures InnovationOf(maze, sol).bonusExitsReached == 0 && InnovationOf(maze, sol).conditionalDoorsUsed == 0
  {
  }

  /** The score is zero exactly when the search counted no teleport and no switch
      press and no bonus exit or conditional door lies on a found route. */
  lemma InnovationZeroIff(maze: StrategicMaze, sol: SolveResult)
    ensures InnovationOf(maze, sol).score == 0 <==>
      sol.usage.teleports == 0 && sol.usage.switchesActivated == 0
      && (sol.solvable ==>
            (forall ch :: ch in maze.bonusExits ==> maze.bonusExits[ch] !in sol.path)
            && (forall ch :: ch in maze.conditionalDoors ==> maze.conditionalDoors[ch] !in sol.path))
  {
    var cells := PathCells(sol.path);
    if sol.solvable {
      forall ch | ch in maze.bonusExits && maze.bonusExits[ch] in sol.path
        ensures Reached(maze.bonusExits, cells) != {}
      {
        assert ch in Reached(maze.bonusExits, cells);
      }
      forall ch | ch in maze.conditionalDoors && maze.conditionalDoors[ch] in sol.path
        ensures Reached(maze.conditionalDoors, cells) != {}
      {
        assert ch in Reached(maze.conditionalDoors, cells);
      }
      if Reached(maze.bonusExits, cells) != {} {
        var ch :| ch in Reached(maze.bonusExits, cells);
        assert maze.bonusExits[ch] in sol.path;
      }
      if Reached(maze.conditionalDoors, cells) != {} {
        var ch :| ch in Reached(maze.conditionalDoors, cells);
        assert maze.conditionalDoors[ch] in sol.path;
      }
    }
  }

  // ---------------------------------------------------------------------
  // analyze_route_complexity

  datatype RouteComplexity = RouteComplexity(score: nat, strategicDecisions: nat)

  /** Teleporter origins, switches, blocks, bonus exits and conditional doors recorded. */
  function ElementCount(maze: StrategicMaze): nat
  {
    |maze.teleportersO| + |maze.switches| + |maze.movableBlocks| + |maze.bonusExits| + |maze.conditionalDoors|
  }

  predicate IsKeyOrDoor(ch: char) { IsLower(ch) || IsPlainDoor(ch) }

  /** Key or key-door cells among the first `n` cells of a row. */
  function RowKeysAndDoors(row: string, n: nat): (k: nat)
    requires n <= |row|
    ensures k <= n
  {
    if n == 0 then 0 else RowKeysAndDoors(row, n - 1) + (if IsKeyOrDoor(row[n - 1]) then 1 else 0)
  }

  /** Key or key-door cells in the first `i` rows, each read up to column `cols`. */
  function KeysAndDoors(grid: Grid, cols: nat, i: nat): (k: nat)
    requires i <= |grid|
    ensures k <= i * cols
  {
    if i == 0 then 0
    else
      var k := KeysAndDoors(grid, cols, i - 1) + RowKeysAndDoors(grid[i - 1], Min(cols, |grid[i - 1]|));
      assert k <= (i - 1) * cols + cols;
      k
  }

  /** What the route-complexity analysis reports: nothing for an unsolved maze;
      otherwise 12 points per strategic element (at most 150) plus 8 per key or
      key-door cell (at most 100). */
  function RouteComplexityOf(maze: StrategicMaze, sol: SolveResult): RouteComplexity
    requires maze.Valid()
  {
    if !sol.solvable then RouteComplexity(0, 0)
    else
      var elements := ElementCount(maze);
      var kd := KeysAndDoors(maze.grid, maze.cols, maze.rows);
      RouteComplexity(Min(elements * 12, 150) + Min(kd * 8, 100), elements + kd)
  }

  /** `analyze_route_complexity`. */
  method AnalyzeRouteComplexity(maze: StrategicMaze, sol: SolveResult) returns (r: RouteComplexity)
    requires maze.Valid()
    ensures r == RouteComplexityOf(maze, sol)
  {
    if !sol.solvable {
      return RouteComplexity(0, 0);
    }
    var elements := |maze.teleportersO| + |maze.switches| + |maze.movableBlocks|
      + |maze.bonusExits| + |maze.conditionalDoors|;
    var score := Min(elements * 12, 150);
    var keysAndDoors := 0;
    for row := 0 to maze.rows
      invariant keysAndDoors == KeysAndDoors(maze.grid, maze.cols, row)
    {
      var line := maze.grid[row];
      for c := 0 to maze.cols
        invariant keysAndDoors == KeysAndDoors(maze.grid, maze.cols, row) + RowKeysAndDoors(line, Min(c, |line|))
      {
        if c < |line| {
          var ch := maze.GetCell(Pos(row, c));
          if IsLower(ch) || IsPlainDoor(ch) {
            keysAndDoors := keysAndDoors + 1;
          }
        }
      }
    }
    score := score + Min(keysAndDoors * 8, 100);
    r := RouteComplexity(score, elements + keysAndDoors);
  }

  /** The route-complexity score lies between 0 and 250, is 0 for an unsolved maze,
      and on a solved maze is 0 exactly when it holds no strategic element and no
      key or key door. */
  lemma RouteComplexityBounds(maze: StrategicMaze, sol: SolveResult)
    requires maze.Valid()
    ensures RouteComplexityOf(maze, sol).score <= 250
    ensures !sol.solvable ==> RouteComplexityOf(maze, sol) == RouteComplexity(0, 0)
    ensures sol.solvable ==>
      (RouteComplexityOf(maze, sol).score == 0 <==>
         ElementCount(maze) == 0 && KeysAndDoors(maze.grid, maze.cols, maze.rows) == 0)
  {
  }

  /** Every counted cell is a cell of the grid read up to the first row's width. */
  lemma {:induction false} KeysAndDoorsNone(grid: Grid, cols: nat, i: nat)
    requires i <= |grid|
    requires forall r, c :: 0 <= r < i && 0 <= c < Min(cols, |grid[r]|) ==> !IsKeyOrDoor(grid[r][c])
    ensures KeysAndDoors(grid, cols, i) == 0
  {
    if i > 0 {
      KeysAndDoorsNone(grid, cols, i - 1);
      RowKeysAndDoorsNone(grid[i - 1], Min(cols, |grid[i - 1]|));
    }
  }

  lemma {:induction false} RowKeysAndDoorsNone(row: string, n: nat)
    requires n <= |row|
    requires forall c :: 0 <= c < n ==> !IsKeyOrDoor(row[c])
    ensures RowKeysAndDoors(row, n) == 0
  {
    if n > 0 {
      RowKeysAndDoorsNone(row, n - 1);
    }
  }
}
