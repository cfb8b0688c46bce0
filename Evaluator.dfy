/** The strategic evaluator: parse, check the start and end, search, then add up eight
    score components and apply the structure penalty. The split package and its
    one-file copy run the same steps and differ only in their size limits. */
module StrategicEvaluator {
  import opened MazeCommon
  import opened MazeConstants
  import opened MazeParsing
  import opened MazeModel
  import opened Pathfinding
  import opened Scoring

  /** Why a maze earned the flat -100. */
  datatype GradeError =
    | ParsingFailed(reason: ParseError)
    | NoValidMaze
    | NoStart
    | NoEnd
    | StartCount(found: nat)
    | EndCount(found: nat)
    | SolveTimeout
    | Unexpected

  /** The `error_type` tag of a failure report. */
  datatype ErrorType = ParsingError | EvaluationError

  /** Parser failures are tagged "parsing", exceptions of any other kind "evaluation";
      the gate checks return their message without a tag. */
  function ErrorTypeOf(e: GradeError): (t: Option<ErrorType>)
    ensures t == Some(ParsingError) <==> e.ParsingFailed?
    ensures t == Some(EvaluationError) <==> e == Unexpected
  {
    match e
    case ParsingFailed(_) => Some(ParsingError)
    case Unexpected => Some(EvaluationError)
    case _ => None
  }

  datatype Components = Components(
    ambition: real,
    strategicBonus: nat,
    innovation: Innovation,
    routeComplexity: RouteComplexity,
    chain: nat,
    pathEfficiency: real,
    completion: nat,
    adjacentTraps: nat,
    danger: nat,
    bonusObjectives: nat)

  /** A graded maze, or a failure worth -100. `route` is the path the search found,
      from which the path-dependent components were computed. */
  datatype Grade =
    | Graded(score: real, baseScore: real, structurePenalty: real, components: Components,
             rows: nat, cols: nat, solvable: bool, route: seq<Pos>, keysCollected: set<char>, chainLength: nat)
    | Failed(error: GradeError)
  {
    function Score(): real
    {
      if Graded? then score else -100.0
    }
  }

  /** The size-independent part of the ambition score. */
  function StrategicBonus(e: Elements): nat
  {
    10 * |e.teleportersO| + 15 * |e.switches| + 20 * |e.bonusExits| + 25 * |e.conditionalDoors|
  }

  function GridSize(grid: Grid): nat { |grid| * Width(grid) }

  /** The -0.25 penalty when traps outnumber twice the walls. */
  function StructurePenalty(grid: Grid): real
  {
    if CountOf(grid, 'T') > 2 * CountOf(grid, '#') then -0.25 else 0.0
  }

  /** The total: the base score scaled by one plus the (non-positive) structure penalty. */
  function Penalized(base: real, penalty: real): real { base * (1.0 + penalty) }

  function SumOf(c: Components): real
  {
    c.ambition + c.innovation.score as real + c.routeComplexity.score as real + c.chain as real
    + c.pathEfficiency + c.completion as real + c.danger as real + c.bonusObjectives as real
  }

  /** A route found runs from the first 'S' to the first 'E'. */
  predicate RouteEnds(grid: Grid, solvable: bool, route: seq<Pos>)
  {
    solvable ==> |route| >= 1 && route[0] == FirstPosition(grid, 'S') && route[|route| - 1] == FirstPosition(grid, 'E')
  }

  /** What holds of a graded result for `grid`, with `log2` standing for `math.log2`. */
  ghost predicate GradedFacts(grid: Grid, log2: nat -> real, g: Grade)
    requires g.Graded?
  {
    var c := g.components;
    g.rows == |grid| && g.cols == Width(grid)
    && c.strategicBonus == StrategicBonus(ScanRows(grid, Width(grid), |grid|))
    && c.ambition == 100.0 * log2(GridSize(grid)) + c.strategicBonus as real
    && c.innovation.score <= 305 && c.innovation.bonusExitsReached <= 3
    && c.routeComplexity.score <= 250
    && c.chain == 50 * g.chainLength
    && c.completion == (if g.solvable then 50 else 0)
    && c.pathEfficiency == (if g.solvable && GridSize(grid) > 0 then (|g.route| as real / GridSize(grid) as real) * 100.0 else 0.0)
    && c.adjacentTraps == TrapSum(grid, PathCells(g.route))
    && c.danger == Min(5 * c.adjacentTraps, 30) && c.danger <= 30
    && c.bonusObjectives == 75 * c.innovation.bonusExitsReached
    && g.structurePenalty == StructurePenalty(grid)
    && g.baseScore == SumOf(c)
    && g.score == Penalized(g.baseScore, g.structurePenalty)
    && RouteEnds(grid, g.solvable, g.route)
    && (!g.solvable ==>
          g.route == [] && g.chainLength == 0 && c.chain == 0 && c.adjacentTraps == 0 && c.danger == 0
          && c.bonusObjectives == 0 && c.routeComplexity.score == 0)
  }

  /** The innovation and route-complexity components are the analyses of the maze
      and the whole search result. */
  ghost predicate AnalysisFacts(maze: StrategicMaze, solution: SolveResult, c: Components)
    requires maze.Valid()
  {
    c.innovation == InnovationOf(maze, solution) && c.routeComplexity == RouteComplexityOf(maze, solution)
  }

  /** What a graded result keeps of the search `solution` on `maze`, the maze object
      built from `grid`: it reports the solution's flag, route, keys and chain, which are
      the search's outcome from the first 'S' to the first 'E' under the cap of 20 pops
      per cell, and its innovation and route complexity are the analyses of both. */
  ghost predicate SearchFacts(grid: Grid, maze: StrategicMaze?, solution: SolveResult, g: Grade)
    requires g.Graded?
  {
    maze != null && maze.grid == grid && maze.Valid()
    && Reports(g, solution) && AnalysisFacts(maze, solution, g.components)
    && Outcome(maze, FirstPosition(grid, 'S'), FirstPosition(grid, 'E'), GridSize(grid) * 20,
               g.solvable, g.route, g.keysCollected, g.chainLength)
  }

  /** The clock fired before pop `k + 1` of a search capped at `cap` pops, and not
      before any earlier pop. */
  ghost predicate ClockFired(timeUp: nat -> bool, cap: nat)
  {
    exists k :: 0 <= k < cap && timeUp(k) && ClockQuiet(timeUp, k)
  }

  /** What holds of the ten components computed for a route on `grid`. */
  ghost predicate ComponentFacts(grid: Grid, log2: nat -> real, c: Components, solvable: bool, route: seq<Pos>,
                                 chainLength: nat)
  {
    c.strategicBonus == StrategicBonus(ScanRows(grid, Width(grid), |grid|))
    && c.ambition == (if GridSize(grid) > 0 then 100.0 * log2(GridSize(grid)) else 0.0) + c.strategicBonus as real
    && c.innovation.score <= 305 && c.innovation.bonusExitsReached <= 3
    && c.routeComplexity.score <= 250
    && c.chain == 50 * chainLength
    && c.completion == (if solvable then 50 else 0)
    && c.pathEfficiency == (if solvable && GridSize(grid) > 0
                            then (|route| as real / GridSize(grid) as real) * 100.0 else 0.0)
    && c.adjacentTraps == TrapSum(grid, PathCells(route))
    && c.danger == Min(5 * c.adjacentTraps, 30)
    && c.bonusObjectives == 75 * c.innovation.bonusExitsReached
    && (!solvable ==> c.routeComplexity.score == 0 && c.innovation.bonusExitsReached == 0)
  }

  /** The graded result reports the search's flag, path, keys and chain. */
  predicate Reports(g: Grade, solution: SolveResult)
    requires g.Graded?
  {
    g.solvable == solution.solvable && g.route == solution.path
    && g.keysCollected == solution.keysCollected && g.chainLength == solution.chainLength
  }

  /** Collects the facts about a graded result. */
  lemma GradedFactsIntro(grid: Grid, log2: nat -> real, g: Grade)
    requires g.Graded? && GridSize(grid) > 0
    requires g.rows == |grid| && g.cols == Width(grid)
    requires ComponentFacts(grid, log2, g.components, g.solvable, g.route, g.chainLength)
    requires g.structurePenalty == StructurePenalty(grid)
    requires g.baseScore == SumOf(g.components)
    requires g.score == Penalized(g.baseScore, g.structurePenalty)
    requires RouteEnds(grid, g.solvable, g.route)
    requires !g.solvable ==> g.route == [] && g.chainLength == 0
    ensures GradedFacts(grid, log2, g)
  {
    if !g.solvable {
      assert PathCells(g.route) == {};
    }
  }

  /** Everything `grade_strategic_maze` does after parsing, on the parsed grid;
      `timeUp` stands for the solver's wall-clock check. */
  method GradeGrid(grid: Grid, log2: nat -> real, timeUp: nat -> bool)
    returns (g: Grade, ghost maze: StrategicMaze?, ghost solution: SolveResult)
    ensures grid == [] <==> g == Failed(NoValidMaze)
    ensures g == Failed(NoStart) <==> grid != [] && CountOf(grid, 'S') == 0
    ensures g == Failed(NoEnd) <==> grid != [] && CountOf(grid, 'S') > 0 && CountOf(grid, 'E') == 0
    ensures g.Failed? && g.error.StartCount? <==>
      grid != [] && CountOf(grid, 'S') > 0 && CountOf(grid, 'E') > 0 && CountOf(grid, 'S') != 1
    ensures g.Failed? && g.error.StartCount? ==> g.error.found == CountOf(grid, 'S')
    ensures g.Failed? && g.error.EndCount? <==>
      grid != [] && CountOf(grid, 'S') == 1 && CountOf(grid, 'E') > 0 && CountOf(grid, 'E') != 1
    ensures g.Failed? && g.error.EndCount? ==> g.error.found == CountOf(grid, 'E')
    ensures g == Failed(SolveTimeout) || g == Failed(Unexpected) || g.Graded? <==>
      grid != [] && CountOf(grid, 'S') == 1 && CountOf(grid, 'E') == 1
    ensures g == Failed(SolveTimeout) ==> ClockFired(timeUp, GridSize(grid) * 20)
    ensures g == Failed(Unexpected) <==> grid != [] && CountOf(grid, 'S') == 1 && CountOf(grid, 'E') == 1
                                          && GridSize(grid) == 0
    ensures g.Failed? ==> !g.error.ParsingFailed?
    ensures g.Graded? ==> GridSize(grid) > 0 && GradedFacts(grid, log2, g) && SearchFacts(grid, maze, solution, g)
  {
    maze := null;
    solution := SolveResult(false, [], {}, 0, {}, {}, Usage(0, 0, 0), false);
    if grid == [] {
      return Failed(NoValidMaze), maze, solution;
    }
    var m := new StrategicMaze(grid);
    maze := m;
    var rows, cols := m.rows, m.cols;
    var sPos := FindPosition(grid, 'S');
    var ePos := FindPosition(grid, 'E');
    if sPos == Pos(-1, -1) {
      return Failed(NoStart), maze, solution;
    }
    if ePos == Pos(-1, -1) {
      return Failed(NoEnd), maze, solution;
    }
    var counts := CountElements(grid);
    assert IsTracked('S') && IsTracked('E') && IsTracked('T') && IsTracked('#');
    if counts['S'] != 1 {
      return Failed(StartCount(counts['S'])), maze, solution;
    }
    if counts['E'] != 1 {
      return Failed(EndCount(counts['E'])), maze, solution;
    }
    g, solution := SolveAndScore(m, sPos, ePos, counts['T'], counts['#'], log2, timeUp);
  }

  /** The search from `sPos` to `ePos`, then the scoring unless it timed out. */
  method SolveAndScore(m: StrategicMaze, sPos: Pos, ePos: Pos, traps: nat, walls: nat, log2: nat -> real,
                       timeUp: nat -> bool) returns (g: Grade, ghost solution: SolveResult)
    requires m.Valid()
    requires sPos == FirstPosition(m.grid, 'S') && ePos == FirstPosition(m.grid, 'E')
    requires traps == CountOf(m.grid, 'T') && walls == CountOf(m.grid, '#')
    ensures g.Failed? ==> g == Failed(SolveTimeout) || g == Failed(Unexpected)
    ensures g == Failed(SolveTimeout) ==> ClockFired(timeUp, GridSize(m.grid) * 20)
    ensures g == Failed(Unexpected) <==> GridSize(m.grid) == 0
    ensures g.Graded? ==> GridSize(m.grid) > 0 && GradedFacts(m.grid, log2, g) && SearchFacts(m.grid, m, solution, g)
  {
    var pathfinder := new StrategicPathfinder(m);
    var result := pathfinder.Solve(sPos, ePos, timeUp);
    solution := result;
    if result.timeout {
      assert ClockQuiet(timeUp, pathfinder.iterations);
      return Failed(SolveTimeout), solution;
    }
    g := ScoreSolution(m, result, traps, walls, log2);
  }

  /** The scoring half of `grade_strategic_maze`, once the search has returned
      without timing out. */
  method ScoreSolution(maze: StrategicMaze, solution: SolveResult, traps: nat, walls: nat, log2: nat -> real)
    returns (g: Grade)
    requires maze.Valid()
    requires traps == CountOf(maze.grid, 'T') && walls == CountOf(maze.grid, '#')
    requires solution.solvable ==>
      |solution.path| >= 1 && solution.path[0] == FirstPosition(maze.grid, 'S')
      && solution.path[|solution.path| - 1] == FirstPosition(maze.grid, 'E')
    requires !solution.solvable ==> solution.path == [] && solution.chainLength == 0
    ensures g.Graded? <==> GridSize(maze.grid) > 0
    ensures g.Failed? ==> g == Failed(Unexpected)
    ensures g.Graded? ==> GradedFacts(maze.grid, log2, g) && Reports(g, solution)
                          && AnalysisFacts(maze, solution, g.components)
  {
    var components := ScoreComponents(maze, solution, log2);
    g := Total(maze.grid, maze.rows, maze.cols, solution, traps, walls, log2, components);
  }

  /** The total of the components with the structure penalty applied, which needs a
      grid of at least one cell. */
  method Total(grid: Grid, rows: nat, cols: nat, solution: SolveResult, traps: nat, walls: nat, log2: nat -> real,
               components: Components)
    returns (g: Grade)
    requires rows == |grid| && cols == Width(grid)
    requires traps == CountOf(grid, 'T') && walls == CountOf(grid, '#')
    requires RouteEnds(grid, solution.solvable, solution.path)
    requires !solution.solvable ==> solution.path == [] && solution.chainLength == 0
    requires ComponentFacts(grid, log2, components, solution.solvable, solution.path, solution.chainLength)
    ensures g.Graded? <==> GridSize(grid) > 0
    ensures g.Failed? ==> g == Failed(Unexpected)
    ensures g.Graded? ==> GradedFacts(grid, log2, g) && Reports(g, solution) && g.components == components
  {
    var gridSize := rows * cols;
    assert gridSize == GridSize(grid);
    var penalty := if traps > walls * 2 then -0.25 else 0.0;
    var base := SumOf(components);
    var total := Penalized(base, penalty);
    // The report's efficiency description divides by the grid size unguarded.
    if gridSize == 0 {
      return Failed(Unexpected);
    }
    g := Graded(total, base, penalty, components, rows, cols, solution.solvable, solution.path,
      solution.keysCollected, solution.chainLength);
    GradedFactsIntro(grid, log2, g);
  }

  /** The ten score components of a search result. */
  method ScoreComponents(maze: StrategicMaze, solution: SolveResult, log2: nat -> real) returns (c: Components)
    requires maze.Valid()
    requires !solution.solvable ==> solution.path == [] && solution.chainLength == 0
    ensures ComponentFacts(maze.grid, log2, c, solution.solvable, solution.path, solution.chainLength)
    ensures AnalysisFacts(maze, solution, c)
  {
    var ambition, strategicBonus := AmbitionScore(maze, log2);
    var innovation := AnalyzeStrategicInnovation(maze, solution);
    InnovationBounded(maze, solution);
    var complexity := AnalyzeRouteComplexity(maze, solution);
    RouteComplexityBounds(maze, solution);
    var chain := solution.chainLength * 50;
    var pathEff, completion, adjacentTraps, danger, bonus := PathScores(maze, solution);
    c := Components(ambition, strategicBonus, innovation, complexity, chain, pathEff,
      completion, adjacentTraps, danger, bonus);
  }

  /** The ambition component: 100 log2 of the grid size plus the strategic bonus. */
  method AmbitionScore(maze: StrategicMaze, log2: nat -> real) returns (ambition: real, strategicBonus: nat)
    requires maze.Valid()
    ensures strategicBonus == StrategicBonus(ScanRows(maze.grid, Width(maze.grid), |maze.grid|))
    ensures ambition == (if GridSize(maze.grid) > 0 then 100.0 * log2(GridSize(maze.grid)) else 0.0)
      + strategicBonus as real
  {
    var gridSize := maze.rows * maze.cols;
    ambition := if gridSize > 0 then 100.0 * log2(gridSize) else 0.0;
    strategicBonus := |maze.teleportersO| * 10 + |maze.switches| * 15
      + |maze.bonusExits| * 20 + |maze.conditionalDoors| * 25;
    ambition := ambition + strategicBonus as real;
  }

  /** The components read off the found route: efficiency, completion, danger from
      adjacent traps, and 75 per bonus exit on the route. */
  method PathScores(maze: StrategicMaze, solution: SolveResult)
    returns (pathEff: real, completion: nat, adjacentTraps: nat, danger: nat, bonus: nat)
    requires maze.Valid()
    requires !solution.solvable ==> solution.path == []
    ensures pathEff == (if solution.solvable && GridSize(maze.grid) > 0
                        then (|solution.path| as real / GridSize(maze.grid) as real) * 100.0 else 0.0)
    ensures completion == (if solution.solvable then 50 else 0)
    ensures adjacentTraps == TrapSum(maze.grid, PathCells(solution.path))
    ensures danger == Min(5 * adjacentTraps, 30)
    ensures bonus == 75 * InnovationOf(maze, solution).bonusExitsReached
  {
    var gridSize := maze.rows * maze.cols;
    var validPath := set p | p in solution.path;
    pathEff := 0.0;
    if gridSize > 0 && solution.solvable {
      pathEff := (|solution.path| as real / gridSize as real) * 100.0;
    }
    completion := if solution.solvable then 50 else 0;
    adjacentTraps := CountAdjacentTraps(maze.grid, validPath);
    danger := Min(adjacentTraps * 5, 30);
    bonus := 0;
    if solution.solvable {
      var exits := CountReached(maze.bonusExits, set p | p in solution.path);
      bonus := 75 * exits;
    }
  }

  /** `grade_strategic_maze` under the given size limits. */
  method GradeStrategicMaze(text: string, lim: Limits, log2: nat -> real, timeUp: nat -> bool)
    returns (g: Grade, ghost maze: StrategicMaze?, ghost solution: SolveResult)
    ensures Parse(text, lim).Err? <==> g.Failed? && g.error.ParsingFailed?
    ensures Parse(text, lim).Err? ==> g == Failed(ParsingFailed(Parse(text, lim).error))
    ensures Parse(text, lim).Ok? ==> var grid := Parse(text, lim).value;
      (g == Failed(NoStart) <==> CountOf(grid, 'S') == 0)
      && (g == Failed(NoEnd) <==> CountOf(grid, 'S') > 0 && CountOf(grid, 'E') == 0)
      && (g == Failed(StartCount(CountOf(grid, 'S'))) <==>
            CountOf(grid, 'S') > 0 && CountOf(grid, 'E') > 0 && CountOf(grid, 'S') != 1)
      && (g == Failed(EndCount(CountOf(grid, 'E'))) <==>
            CountOf(grid, 'S') == 1 && CountOf(grid, 'E') > 0 && CountOf(grid, 'E') != 1)
      && (g.Graded? || g == Failed(SolveTimeout) <==> CountOf(grid, 'S') == 1 && CountOf(grid, 'E') == 1)
      && (g == Failed(SolveTimeout) ==> ClockFired(timeUp, GridSize(grid) * 20))
      && (g.Graded? ==> GradedFacts(grid, log2, g) && SearchFacts(grid, maze, solution, g))
    ensures g.Failed? ==> g.error != NoValidMaze && g.error != Unexpected
  {
    var parsed := ParseMazeFromText(text, lim);
    if parsed.Err? {
      return Failed(ParsingFailed(parsed.error)), null, SolveResult(false, [], {}, 0, {}, {}, Usage(0, 0, 0), false);
    }
    ParsedGridNonEmpty(text, lim);
    g, maze, solution := GradeGrid(parsed.value, log2, timeUp);
  }

  /** What the graded flag and chain mean: a solved route is a run of moves from the
      'S' to the 'E', the chain score counts the door letters on it that the collected
      keys open, and, unless the cap of 20 pops per cell could cut the search short, the
      completion bonus is earned exactly when the 'E' is reachable. */
  lemma GradedSearchMeaning(grid: Grid, log2: nat -> real, g: Grade, maze: StrategicMaze?, solution: SolveResult)
    requires g.Graded? && GradedFacts(grid, log2, g) && SearchFacts(grid, maze, solution, g)
    ensures var start, end := FirstPosition(grid, 'S'), FirstPosition(grid, 'E');
      (g.solvable ==> MoveRoute(maze, start, end, g.route)
                      && (forall i :: 1 <= i < |g.route| ==> maze.GetCell(g.route[i]) != '#')
                      && g.components.chain == 50 * |UnlockedDoors(maze, g.route, g.keysCollected)|)
      && (!ManyReachable(maze, start, GridSize(grid) * 20) ==>
            (g.components.completion == 50 <==> EndReachable(maze, start, end)))
  {
    var start, end := FirstPosition(grid, 'S'), FirstPosition(grid, 'E');
    if g.solvable {
      MoveRouteOffWalls(maze, start, end, g.route);
    }
    if !ManyReachable(maze, start, GridSize(grid) * 20) {
      SolvableIffReachable(maze, start, end, GridSize(grid) * 20, g.solvable, g.route, g.keysCollected, g.chainLength);
    }
  }

  /** The facts pin a graded result down completely: two graded results for the same
      grid, maze and search result are the same grade, score included. */
  lemma GradeDetermined(grid: Grid, log2: nat -> real, maze: StrategicMaze?, solution: SolveResult, g1: Grade, g2: Grade)
    requires g1.Graded? && GradedFacts(grid, log2, g1) && SearchFacts(grid, maze, solution, g1)
    requires g2.Graded? && GradedFacts(grid, log2, g2) && SearchFacts(grid, maze, solution, g2)
    ensures g1 == g2
  {
    var c1, c2 := g1.components, g2.components;
    assert c1.innovation == c2.innovation && c1.routeComplexity == c2.routeComplexity;
    assert c1 == c2;
  }

  /** A parsed grid has at least one row and one column. */
  lemma ParsedGridNonEmpty(text: string, lim: Limits)
    requires Parse(text, lim).Ok?
    ensures Parse(text, lim).value != [] && GridSize(Parse(text, lim).value) > 0
  {
    ParseSuccess(text, lim);
    var g := Parse(text, lim).value;
    MulMonotone(1, |g|, 1, Width(g));
  }

  /** `grade_maze` of the split package: the same evaluator with 64 x 64 limits. */
  method GradeMaze(text: string, log2: nat -> real, timeUp: nat -> bool) returns (g: Grade)
    ensures Parse(text, StrategicLimits).Err? <==> g.Failed? && g.error.ParsingFailed?
    ensures g.Failed? ==> g.error != NoValidMaze && g.error != Unexpected
  {
    ghost var maze, solution;
    g, maze, solution := GradeStrategicMaze(text, StrategicLimits, log2, timeUp);
  }

  /** `grade_maze` of the one-file copy: the same evaluator with 32 x 32 limits. */
  method GradeMazeFixed(text: string, log2: nat -> real, timeUp: nat -> bool) returns (g: Grade)
    ensures Parse(text, FixedLimits).Err? <==> g.Failed? && g.error.ParsingFailed?
    ensures g.Failed? ==> g.error != NoValidMaze && g.error != Unexpected
  {
    ghost var maze, solution;
    g, maze, solution := GradeStrategicMaze(text, FixedLimits, log2, timeUp);
  }

  /** Raising the limits never turns an accepted maze into a rejected or different one:
      every maze the 32 x 32 copy accepts, the 64 x 64 package parses identically. */
  lemma LargerLimitsAcceptMore(text: string, small: Limits, large: Limits)
    requires small.maxRows <= large.maxRows && small.maxCols <= large.maxCols && small.maxCells <= large.maxCells
    requires Parse(text, small).Ok?
    ensures Parse(text, large) == Parse(text, small)
  {
  }

  lemma FixedAcceptsLess(text: string)
    requires Parse(text, FixedLimits).Ok?
    ensures Parse(text, StrategicLimits) == Parse(text, FixedLimits)
  {
    LargerLimitsAcceptMore(text, FixedLimits, StrategicLimits);
  }

  /** A parsed maze of between 33 and 64 rows (and at most 64 columns) separates the
      two copies: the package parses it, the one-file copy reports it too tall. */
  lemma TallMazeSeparatesCopies(text: string)
    requires Parse(text, StrategicLimits).Ok?
    requires |Parse(text, StrategicLimits).value| > 32
    ensures Parse(text, FixedLimits).Err? && Parse(text, FixedLimits).error.TooTall?
  {
    ParseSuccess(text, StrategicLimits);
    var mt := MazeText(text).value;
    MazeTextRows(text);
    CleanRowsStripped(SplitLines(mt));
    CheckRowsSuccess(RawRows(mt), StrategicLimits);
  }

  /** The structure penalty only ever scales the base score by 1 or by 0.75. */
  lemma PenaltyScales(grid: Grid, base: real)
    ensures Penalized(base, StructurePenalty(grid)) == (if CountOf(grid, 'T') > 2 * CountOf(grid, '#') then 0.75 * base else base)
  {
  }

  /** On a parsed (rectangular) maze the strategic bonus counts the grid's own cells. */
  lemma StrategicBonusCounts(grid: Grid)
    requires Rectangular(grid)
    ensures var e := ScanRows(grid, Width(grid), |grid|);
      StrategicBonus(e) == 10 * CountOf(grid, 'O') + 15 * CountOf(grid, 's') + 20 * |e.bonusExits| + 25 * |e.conditionalDoors|
  {
    ScanRectangular(grid);
    OccurrencesDistinct(grid, 's');
    DistinctCardinality(Occurrences(grid, 's'));
  }

  /** A list without repeats has as many distinct elements as entries. */
  lemma {:induction false} DistinctCardinality(ps: seq<Pos>)
    requires Distinct(ps)
    ensures |set p | p in ps| == |ps|
  {
    if ps != [] {
      var init := ps[..|ps| - 1];
      DistinctCardinality(init);
      assert (set p | p in ps) == (set p | p in init) + {ps[|ps| - 1]};
      assert ps[|ps| - 1] !in (set p | p in init);
    }
  }
}
