/** The legacy multi-key evaluator: a looser parser that keeps ragged rows, a seven-entry
    element count, and a five-component score with a size penalty above 32 x 32. */
module LegacyEvaluator {
  import opened MazeCommon
  import opened MazeParsing
  import opened Scoring
  import opened LegacySearch

  // ---------------------------------------------------------------------
  // Parsing.

  /** The characters whose presence keeps a fallback line. */
  predicate IsLegacyMazeChar(ch: char) { ch in {'#', 'S', 'E', 'K', 'D', 'T', ' '} }

  /** Whether the fallback keeps an (already stripped) line. */
  predicate LegacyKeepLine(line: string)
  {
    line != [] && exists i :: 0 <= i < |line| && IsLegacyMazeChar(line[i])
  }

  /** The stripped lines the fallback keeps, in input order. */
  function LegacyFallbackLines(lines: seq<string>): seq<string>
  {
    if lines == [] then []
    else
      var line := Strip(lines[|lines| - 1]);
      LegacyFallbackLines(lines[..|lines| - 1]) + (if LegacyKeepLine(line) then [line] else [])
  }

  lemma LegacyFallbackLinesStep(lines: seq<string>, k: nat)
    requires k < |lines|
    ensures LegacyFallbackLines(lines[..k + 1]) == LegacyFallbackLines(lines[..k])
              + (if LegacyKeepLine(Strip(lines[k])) then [Strip(lines[k])] else [])
  {
    assert lines[..k + 1][..k] == lines[..k];
  }

  lemma CleanRowsStep(rows: seq<string>, k: nat)
    requires k < |rows|
    ensures CleanRows(rows[..k + 1]) == CleanRows(rows[..k])
              + (if Strip(rows[k]) != [] then [Strip(rows[k])] else [])
  {
    assert rows[..k + 1][..k] == rows[..k];
  }

  /** The maze text: the fenced body as it stands, or the kept fallback lines joined. */
  function LegacyMazeText(text: string): string
  {
    match FencedInterior(text)
    case Some(body) => body
    case None => JoinLines(LegacyFallbackLines(SplitLines(Strip(text))))
  }

  /** Why the legacy evaluator returned a flat -100. */
  datatype LegacyError = NoMazeFound | NoValidMaze | NoStart

  /** `parse_maze_from_text` of the legacy evaluator: an empty maze text raises,
      otherwise the stripped non-blank lines, which may be ragged or none at all. */
  function LegacyParse(text: string): Result<Grid, LegacyError>
  {
    var mt := LegacyMazeText(text);
    if mt == [] then Err(NoMazeFound) else Ok(CleanRows(SplitLines(mt)))
  }

  method LegacyParseMazeFromText(text: string) returns (r: Result<Grid, LegacyError>)
    ensures r == LegacyParse(text)
  {
    var fenced := FencedInterior(text);
    var mazeText: string;
    if fenced.Some? {
      mazeText := fenced.value;
    } else {
      var lines := SplitLines(Strip(text));
      var mazeLines: seq<string> := [];
      for k := 0 to |lines|
        invariant mazeLines == LegacyFallbackLines(lines[..k])
      {
        LegacyFallbackLinesStep(lines, k);
        var line := Strip(lines[k]);
        if LegacyKeepLine(line) {
          mazeLines := mazeLines + [line];
        }
      }
      assert lines[..|lines|] == lines;
      mazeText := JoinLines(mazeLines);
    }
    if mazeText == [] {
      return Err(NoMazeFound);
    }
    var pieces := SplitLines(mazeText);
    var rows: seq<string> := [];
    for k := 0 to |pieces|
      invariant rows == CleanRows(pieces[..k])
    {
      CleanRowsStep(pieces, k);
      var line := Strip(pieces[k]);
      if line != [] {
        rows := rows + [line];
      }
    }
    assert pieces[..|pieces|] == pieces;
    return Ok(rows);
  }

  /** Every parsed row is non-blank and already stripped. */
  lemma LegacyRowsClean(text: string)
    requires LegacyParse(text).Ok?
    ensures forall k :: 0 <= k < |LegacyParse(text).value| ==>
      var x := LegacyParse(text).value[k]; x != [] && Strip(x) == x
  {
    CleanRowsStripped(SplitLines(LegacyMazeText(text)));
  }

  lemma {:induction false} JoinLinesEmptyIff(ls: seq<string>)
    requires forall k :: 0 <= k < |ls| ==> ls[k] != []
    ensures JoinLines(ls) == [] <==> ls == []
  {
    if |ls| > 1 {
      assert |JoinLines(ls)| >= |ls[0]|;
    }
  }

  /** The fallback keeps nothing exactly when no stripped line is kept. */
  lemma {:induction false} LegacyFallbackEmptyIff(lines: seq<string>)
    ensures LegacyFallbackLines(lines) == [] <==> forall k :: 0 <= k < |lines| ==> !LegacyKeepLine(Strip(lines[k]))
  {
    if lines != [] {
      var init := lines[..|lines| - 1];
      LegacyFallbackEmptyIff(init);
      if LegacyFallbackLines(lines) == [] {
        forall k | 0 <= k < |lines| ensures !LegacyKeepLine(Strip(lines[k])) {
          if k < |lines| - 1 { assert lines[k] == init[k]; }
        }
      }
    }
  }

  /** Kept fallback lines are non-blank, stripped and newline-free when the input lines are. */
  lemma {:induction false} LegacyFallbackClean(lines: seq<string>)
    requires forall k :: 0 <= k < |lines| ==> '\n' !in lines[k]
    ensures forall k :: 0 <= k < |LegacyFallbackLines(lines)| ==>
      var x := LegacyFallbackLines(lines)[k]; x != [] && Strip(x) == x && '\n' !in x
  {
    if lines != [] {
      var last := lines[|lines| - 1];
      LegacyFallbackClean(lines[..|lines| - 1]);
      StripKeepsNoNewline(last);
      StripIdempotent(last);
    }
  }

  /** Without a fenced block the parse fails exactly when no line of the stripped text is kept,
      and otherwise the rows are precisely the kept lines. */
  lemma LegacyFallbackParse(text: string)
    requires FencedInterior(text).None?
    ensures var kept := LegacyFallbackLines(SplitLines(Strip(text)));
      (LegacyParse(text).Err? <==> forall k :: 0 <= k < |SplitLines(Strip(text))| ==>
                                      !LegacyKeepLine(Strip(SplitLines(Strip(text))[k])))
      && (LegacyParse(text).Ok? ==> LegacyParse(text).value == kept)
  {
    var lines := SplitLines(Strip(text));
    var kept := LegacyFallbackLines(lines);
    LegacyFallbackEmptyIff(lines);
    assert LegacyMazeText(text) == JoinLines(kept);
    if kept != [] {
      SplitLinesNoNewline(Strip(text));
      LegacyFallbackClean(lines);
      JoinedRowsParse(kept);
      assert LegacyParse(text) == Ok(kept);
    } else {
      assert LegacyParse(text) == Err(NoMazeFound);
    }
  }

  /** Clean rows joined by newlines form a non-empty text whose non-blank lines are those rows. */
  lemma JoinedRowsParse(rows: seq<string>)
    requires rows != []
    requires forall k :: 0 <= k < |rows| ==> rows[k] != [] && Strip(rows[k]) == rows[k] && '\n' !in rows[k]
    ensures JoinLines(rows) != [] && CleanRows(SplitLines(JoinLines(rows))) == rows
  {
    JoinLinesEmptyIff(rows);
    SplitJoin(rows);
    CleanRowsFixed(rows);
  }

  /** A fenced block holding clean rows, one per line, parses back into exactly those
      rows; they are neither padded nor required to have the same width. */
  lemma LegacyFencedRoundTrip(text: string, rows: seq<string>)
    requires rows != []
    requires forall k :: 0 <= k < |rows| ==> rows[k] != [] && Strip(rows[k]) == rows[k] && '\n' !in rows[k]
    requires FencedInterior(text) == Some(JoinLines(rows))
    ensures LegacyParse(text) == Ok(rows)
  {
    JoinedRowsParse(rows);
  }

  /** A fenced block holding only blank lines parses into no rows at all rather than
      raising, which is what leads the evaluator to "No valid maze found". */
  lemma LegacyBlankBlock(text: string)
    requires FencedInterior(text).Some? && FencedInterior(text).value != []
    requires forall k :: 0 <= k < |SplitLines(FencedInterior(text).value)| ==>
               AllSpace(SplitLines(FencedInterior(text).value)[k])
    ensures LegacyParse(text) == Ok([])
  {
    CleanRowsEmptyIff(SplitLines(FencedInterior(text).value));
  }

  // ---------------------------------------------------------------------
  // Counting.

  /** The seven characters `count_elements` of the legacy evaluator tracks. */
  const LegacyCounted: set<char> := {'S', 'E', 'K', 'D', 'T', '#', ' '}

  /** `count_elements`: each tracked character mapped to its number of cells. */
  method LegacyCountElements(grid: Grid) returns (counts: map<char, nat>)
    ensures counts.Keys == LegacyCounted
    ensures forall ch :: ch in counts ==> counts[ch] == CountOf(grid, ch)
  {
    counts := map ch | ch in LegacyCounted :: 0;
    for r := 0 to |grid|
      invariant counts.Keys == LegacyCounted
      invariant forall ch :: ch in counts ==> counts[ch] == |GridOccurrences(grid, ch, r)|
    {
      for c := 0 to |grid[r]|
        invariant counts.Keys == LegacyCounted
        invariant forall ch :: ch in counts ==>
          counts[ch] == |GridOccurrences(grid, ch, r)| + |RowOccurrences(grid[r], r, ch, c)|
      {
        var ch := grid[r][c];
        if ch in counts {
          counts := counts[ch := counts[ch] + 1];
        }
      }
    }
  }

  // ---------------------------------------------------------------------
  // Grading.

  const LegacyMaxRows: nat := 32
  const LegacyMaxCols: nat := 32

  /** Ten points per row and per column beyond 32, applied only when either limit is exceeded. */
  function SizePenalty(rows: nat, cols: nat): nat
  {
    if rows > LegacyMaxRows || cols > LegacyMaxCols then
      (Max(0, rows - LegacyMaxRows) + Max(0, cols - LegacyMaxCols)) * 10
    else 0
  }

  /** The guard changes nothing: the penalty is always ten per excess row and column,
      and it is zero exactly when the maze fits in 32 x 32. */
  lemma SizePenaltyExcess(rows: nat, cols: nat)
    ensures SizePenalty(rows, cols) == 10 * (Max(0, rows - 32) + Max(0, cols - 32))
    ensures SizePenalty(rows, cols) == 0 <==> rows <= 32 && cols <= 32
    ensures rows >= 32 ==> SizePenalty(rows + 1, cols) == SizePenalty(rows, cols) + 10
  {
  }

  /** A graded maze, or a failure worth -100. */
  datatype LegacyGrade =
    | LegacyGraded(score: real, baseScore: real, structurePenalty: real, sizePenalty: nat,
                   ambition: real, complexity: nat, pathEfficiency: real, completion: nat, danger: real,
                   adjacentTraps: nat, rows: nat, cols: nat, solvable: bool, pathLength: nat,
                   keysCollected: set<char>, chainLength: nat)
    | LegacyFailed(error: LegacyError)
  {
    function Score(): real
    {
      if LegacyGraded? then score else -100.0
    }
  }

  /** What the search promises about the solution it returned for `grid`. */
  ghost predicate RouteFacts(grid: Grid, g: LegacyGrade)
    requires g.LegacyGraded?
  {
    var start, end := FirstPosition(grid, 'S'), FirstPosition(grid, 'E');
    (CountOf(grid, 'E') == 0 ==> !g.solvable)
    && (g.solvable ==>
          exists route :: KeyRoute(grid, start, end, route) && |route| == g.pathLength
            && g.keysCollected == KeysOn(grid, route[..|route| - 1])
            && g.chainLength == |ChainDoors(grid, route, g.keysCollected)|
            && g.adjacentTraps == TrapSum(grid, PathCells(route)))
    && (!g.solvable ==> g.pathLength == 0 && g.keysCollected == {} && g.chainLength == 0 && g.adjacentTraps == 0)
    && (!g.solvable && CountOf(grid, 'E') > 0 && |StateSpace(grid, start)| < MaxIterations ==>
          forall route :: !KeyRoute(grid, start, end, route))
  }

  /** `100 * log2(grid_size)`, or 0 for an empty grid. */
  function Ambition(size: nat, log2: nat -> real): real
  {
    if size > 0 then 100.0 * log2(size) else 0.0
  }

  /** The score after the structure penalty scales the base and the size penalty comes off. */
  function Total(base: real, structurePenalty: real, sizePenalty: nat): real
  {
    base * (1.0 + structurePenalty) - sizePenalty as real
  }

  /** The score arithmetic of a graded result for `grid`, with `log2` and `sqrt` standing
      for `math.log2` and `math.sqrt`; `cols` is the width of the first row. */
  ghost predicate ScoreFacts(grid: Grid, log2: nat -> real, sqrt: nat -> real, g: LegacyGrade)
    requires g.LegacyGraded?
  {
    var size := g.rows * g.cols;
    grid != [] && g.rows == |grid| && g.cols == |grid[0]|
    && g.sizePenalty == SizePenalty(g.rows, g.cols)
    && g.ambition == Ambition(size, log2)
    && g.complexity == 50 * g.chainLength
    && g.pathEfficiency == (if size > 0 && g.solvable then (g.pathLength as real / size as real) * 100.0 else 0.0)
    && g.completion == (if g.solvable then 50 else 0)
    && g.danger == (if g.adjacentTraps > 0 then 20.0 * sqrt(g.adjacentTraps) else 0.0)
    && g.structurePenalty == (if CountOf(grid, 'T') > CountOf(grid, '#') then -0.5 else 0.0)
    && g.baseScore == g.ambition + g.complexity as real + g.pathEfficiency + g.completion as real + g.danger
    && g.score == Total(g.baseScore, g.structurePenalty, g.sizePenalty)
  }

  /** What holds of a graded result for `grid`: the arithmetic, a start cell, and the search's promises. */
  ghost predicate LegacyGradedFacts(grid: Grid, log2: nat -> real, sqrt: nat -> real, g: LegacyGrade)
    requires g.LegacyGraded?
  {
    ScoreFacts(grid, log2, sqrt, g) && CountOf(grid, 'S') > 0 && RouteFacts(grid, g)
  }

  /** What the search (or its stand-in when there is no E) promises about its solution. */
  ghost predicate SolutionFacts(grid: Grid, start: Pos, end: Pos, sol: LegacySolution)
  {
    (end == Pos(-1, -1) ==> !sol.solvable)
    && (sol.solvable ==>
          KeyRoute(grid, start, end, sol.path) && sol.pathLength == |sol.path|
          && sol.keysCollected == KeysOn(grid, sol.path[..|sol.path| - 1])
          && sol.chainLength == |ChainDoors(grid, sol.path, sol.keysCollected)|)
    && (!sol.solvable ==> sol.path == [] && sol.pathLength == 0 && sol.keysCollected == {} && sol.chainLength == 0)
    && (!sol.solvable && end != Pos(-1, -1) && |StateSpace(grid, start)| < MaxIterations ==>
          forall route :: !KeyRoute(grid, start, end, route))
  }

  /** The solving step of `grade_maze`: the search when E was found, otherwise the
      fixed unsolvable answer. */
  method LegacySolve(grid: Grid, sPos: Pos, ePos: Pos) returns (sol: LegacySolution)
    requires InGrid(grid, sPos)
    ensures SolutionFacts(grid, sPos, ePos, sol)
  {
    if ePos != Pos(-1, -1) {
      ghost var popped;
      sol, popped := SolveMazeGraph(grid, sPos, ePos);
      if !sol.solvable {
        assert UppersOn(grid, []) == {};
      }
    } else {
      sol := LegacySolution(false, [], 0, {}, 0);
    }
  }

  /** The search's promises, carried over to the grade built from its solution. */
  lemma RouteFactsIntro(grid: Grid, sol: LegacySolution, g: LegacyGrade)
    requires g.LegacyGraded?
    requires SolutionFacts(grid, FirstPosition(grid, 'S'), FirstPosition(grid, 'E'), sol)
    requires g.solvable == sol.solvable && g.pathLength == sol.pathLength && g.keysCollected == sol.keysCollected
    requires g.chainLength == sol.chainLength && g.adjacentTraps == TrapSum(grid, PathCells(sol.path))
    ensures RouteFacts(grid, g)
  {
    if !sol.solvable {
      assert PathCells(sol.path) == {};
    }
  }

  /** Everything `grade_maze` does after parsing, on a non-empty parsed grid. */
  method LegacyGradeGrid(grid: Grid, log2: nat -> real, sqrt: nat -> real) returns (g: LegacyGrade)
    requires grid != []
    ensures g.LegacyFailed? <==> CountOf(grid, 'S') == 0
    ensures g.LegacyFailed? ==> g.error == NoStart
    ensures g.LegacyGraded? ==> LegacyGradedFacts(grid, log2, sqrt, g)
  {
    var sizePenalty := SizePenalty(|grid|, |grid[0]|);
    var counts := LegacyCountElements(grid);
    var sPos := FindPosition(grid, 'S');
    var ePos := FindPosition(grid, 'E');
    if sPos == Pos(-1, -1) {
      return LegacyFailed(NoStart);
    }
    g := LegacySolveAndScore(grid, sizePenalty, counts['T'], counts['#'], sPos, ePos, log2, sqrt);
  }

  /** Solving from the found start, then scoring. */
  method LegacySolveAndScore(grid: Grid, sizePenalty: nat, traps: nat, walls: nat, sPos: Pos, ePos: Pos,
                             log2: nat -> real, sqrt: nat -> real) returns (g: LegacyGrade)
    requires grid != [] && sizePenalty == SizePenalty(|grid|, |grid[0]|)
    requires traps == CountOf(grid, 'T') && walls == CountOf(grid, '#')
    requires sPos == FirstPosition(grid, 'S') && ePos == FirstPosition(grid, 'E')
    requires InGrid(grid, sPos) && CountOf(grid, 'S') > 0
    ensures g.LegacyGraded? && LegacyGradedFacts(grid, log2, sqrt, g)
  {
    var sol := LegacySolve(grid, sPos, ePos);
    g := LegacyScore(grid, |grid|, |grid[0]|, sizePenalty, traps, walls, sol, log2, sqrt);
    RouteFactsIntro(grid, sol, g);
  }

  /** The scoring half of `grade_maze`: five components, the structure penalty and the size penalty. */
  method LegacyScore(grid: Grid, rows: nat, cols: nat, sizePenalty: nat, traps: nat, walls: nat,
                     sol: LegacySolution, log2: nat -> real, sqrt: nat -> real) returns (g: LegacyGrade)
    requires grid != [] && rows == |grid| && cols == |grid[0]|
    requires sizePenalty == SizePenalty(rows, cols)
    requires traps == CountOf(grid, 'T') && walls == CountOf(grid, '#')
    ensures g.LegacyGraded? && ScoreFacts(grid, log2, sqrt, g)
    ensures g.solvable == sol.solvable && g.pathLength == sol.pathLength && g.keysCollected == sol.keysCollected
    ensures g.chainLength == sol.chainLength && g.adjacentTraps == TrapSum(grid, PathCells(sol.path))
  {
    var validPath := PathCells(sol.path);
    var gridSize := rows * cols;
    var ambition := Ambition(gridSize, log2);
    var chainScore := sol.chainLength * 50;
    var pathEff := 0.0;
    if gridSize > 0 && sol.solvable {
      pathEff := (sol.pathLength as real / gridSize as real) * 100.0;
    }
    var completion := if sol.solvable then 50 else 0;
    var adjacentTraps := CountAdjacentTraps(grid, validPath);
    var danger := if adjacentTraps > 0 then 20.0 * sqrt(adjacentTraps) else 0.0;
    var structurePenalty := 0.0;
    if traps > walls {
      structurePenalty := -0.5;
    }
    var base := ambition + chainScore as real + pathEff + completion as real + danger;
    var total := Total(base, structurePenalty, sizePenalty);
    g := LegacyGraded(total, base, structurePenalty, sizePenalty, ambition, chainScore, pathEff, completion,
                      danger, adjacentTraps, rows, cols, sol.solvable, sol.pathLength, sol.keysCollected,
                      sol.chainLength);
  }

  /** `grade_maze` of the legacy evaluator; the `ValueError` of an empty maze text is
      caught and reported as the flat -100. */
  method LegacyGradeMaze(text: string, log2: nat -> real, sqrt: nat -> real) returns (g: LegacyGrade)
    ensures g == LegacyFailed(NoMazeFound) <==> LegacyParse(text).Err?
    ensures g == LegacyFailed(NoValidMaze) <==> LegacyParse(text) == Ok([])
    ensures g == LegacyFailed(NoStart) <==>
      LegacyParse(text).Ok? && LegacyParse(text).value != [] && CountOf(LegacyParse(text).value, 'S') == 0
    ensures g.LegacyGraded? ==> LegacyParse(text).Ok? && LegacyGradedFacts(LegacyParse(text).value, log2, sqrt, g)
  {
    var parsed := LegacyParseMazeFromText(text);
    if parsed.Err? {
      return LegacyFailed(NoMazeFound);
    }
    var grid := parsed.value;
    if grid == [] {
      return LegacyFailed(NoValidMaze);
    }
    g := LegacyGradeGrid(grid, log2, sqrt);
  }

  // ---------------------------------------------------------------------
  // What the grade promises.

  /** A route can only end inside the grid or on its own start. */
  lemma RouteEndsInGrid(grid: Grid, start: Pos, end: Pos, route: seq<Pos>)
    requires KeyRoute(grid, start, end, route)
    ensures InGrid(grid, end) || end == start
  {
    if |route| > 1 {
      assert RouteStepAt(grid, route, |route| - 2);
    }
  }

  /** When the search could not have hit its iteration cap, a graded maze is marked
      solvable exactly when a key-respecting route leads from S to E. */
  lemma LegacySolvableIffRoute(grid: Grid, log2: nat -> real, sqrt: nat -> real, g: LegacyGrade)
    requires g.LegacyGraded? && LegacyGradedFacts(grid, log2, sqrt, g)
    requires |StateSpace(grid, FirstPosition(grid, 'S'))| < MaxIterations
    ensures g.solvable <==> exists route :: KeyRoute(grid, FirstPosition(grid, 'S'), FirstPosition(grid, 'E'), route)
  {
    var start, end := FirstPosition(grid, 'S'), FirstPosition(grid, 'E');
    if !g.solvable && CountOf(grid, 'E') == 0 {
      forall route | KeyRoute(grid, start, end, route) ensures false {
        RouteEndsInGrid(grid, start, end, route);
      }
    }
  }

  /** A maze small enough that the search cannot hit its cap, with some route from S to E,
      is graded solvable with the completion bonus, on a route whose chain is the one scored. */
  lemma LegacySolvedRoute(grid: Grid, log2: nat -> real, sqrt: nat -> real, g: LegacyGrade, known: seq<Pos>)
    returns (route: seq<Pos>)
    requires g.LegacyGraded? && LegacyGradedFacts(grid, log2, sqrt, g)
    requires |StateSpace(grid, FirstPosition(grid, 'S'))| < MaxIterations
    requires KeyRoute(grid, FirstPosition(grid, 'S'), FirstPosition(grid, 'E'), known)
    ensures g.solvable && g.completion == 50
    ensures KeyRoute(grid, FirstPosition(grid, 'S'), FirstPosition(grid, 'E'), route) && |route| == g.pathLength
    ensures g.keysCollected == KeysOn(grid, route[..|route| - 1])
    ensures g.chainLength == |ChainDoors(grid, route, g.keysCollected)| && g.complexity == 50 * g.chainLength
  {
    LegacySolvableIffRoute(grid, log2, sqrt, g);
    route :| KeyRoute(grid, FirstPosition(grid, 'S'), FirstPosition(grid, 'E'), route) && |route| == g.pathLength
      && g.keysCollected == KeysOn(grid, route[..|route| - 1])
      && g.chainLength == |ChainDoors(grid, route, g.keysCollected)|
      && g.adjacentTraps == TrapSum(grid, PathCells(route));
  }

  /** When every route from S to E crosses the same key/door pairs, the grade counts
      exactly those pairs. */
  lemma LegacyGradedChain(grid: Grid, log2: nat -> real, sqrt: nat -> real, g: LegacyGrade,
                          known: seq<Pos>, doors: set<char>)
    requires g.LegacyGraded? && LegacyGradedFacts(grid, log2, sqrt, g)
    requires |StateSpace(grid, FirstPosition(grid, 'S'))| < MaxIterations
    requires KeyRoute(grid, FirstPosition(grid, 'S'), FirstPosition(grid, 'E'), known)
    requires forall route :: KeyRoute(grid, FirstPosition(grid, 'S'), FirstPosition(grid, 'E'), route) ==>
               ChainDoors(grid, route, KeysOn(grid, route[..|route| - 1])) == doors
    ensures g.solvable && g.completion == 50 && g.chainLength == |doors| && g.complexity == 50 * |doors|
  {
    var route := LegacySolvedRoute(grid, log2, sqrt, g, known);
  }

  /** A maze with no route from S to E is graded unsolvable, with no completion or chain points. */
  lemma LegacyUnsolved(grid: Grid, log2: nat -> real, sqrt: nat -> real, g: LegacyGrade)
    requires g.LegacyGraded? && LegacyGradedFacts(grid, log2, sqrt, g)
    requires forall route :: !KeyRoute(grid, FirstPosition(grid, 'S'), FirstPosition(grid, 'E'), route)
    ensures !g.solvable && g.completion == 0 && g.complexity == 0 && g.pathEfficiency == 0.0
  {
  }

  /** The chain bonus is bounded by the keys lying in the maze: at most 50 points per
      distinct lower-case letter, however the route runs. */
  lemma LegacyComplexityBound(grid: Grid, log2: nat -> real, sqrt: nat -> real, g: LegacyGrade)
    requires g.LegacyGraded? && LegacyGradedFacts(grid, log2, sqrt, g)
    ensures g.keysCollected <= GridKeys(grid)
    ensures g.chainLength <= |g.keysCollected|
    ensures g.complexity <= 50 * |GridKeys(grid)|
  {
    if g.solvable {
      var route :| KeyRoute(grid, FirstPosition(grid, 'S'), FirstPosition(grid, 'E'), route)
        && |route| == g.pathLength && g.keysCollected == KeysOn(grid, route[..|route| - 1])
        && g.chainLength == |ChainDoors(grid, route, g.keysCollected)|;
      KeysOnWithin(grid, route[..|route| - 1]);
      ChainBounds(grid, route, g.keysCollected);
      SubsetSize(g.keysCollected, GridKeys(grid));
    }
  }

  /** The maze is never empty once graded, so the ambition term is always 100 * log2 of
      its size and path efficiency is the route length over that size. */
  lemma LegacySizePositive(text: string, log2: nat -> real, sqrt: nat -> real, g: LegacyGrade)
    requires g.LegacyGraded? && LegacyParse(text).Ok? && LegacyGradedFacts(LegacyParse(text).value, log2, sqrt, g)
    ensures g.rows * g.cols > 0
    ensures g.ambition == 100.0 * log2(g.rows * g.cols)
  {
    var grid := LegacyParse(text).value;
    LegacyRowsClean(text);
    assert grid[0] != [];
    MulMonotone(1, g.rows, 1, g.cols);
  }

  /** Traps outnumbering walls halve the score before the size penalty comes off. */
  lemma LegacyTrapHeavyHalves(grid: Grid, log2: nat -> real, sqrt: nat -> real, g: LegacyGrade)
    requires g.LegacyGraded? && LegacyGradedFacts(grid, log2, sqrt, g)
    ensures CountOf(grid, 'T') > CountOf(grid, '#') ==> g.score == g.baseScore / 2.0 - g.sizePenalty as real
    ensures CountOf(grid, 'T') <= CountOf(grid, '#') ==> g.score == g.baseScore - g.sizePenalty as real
  {
  }
}
