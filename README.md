# Maze evaluator and leaderboard, modelled in Dafny

This project models the maze evaluator of an LLM benchmark suite, together with the leaderboard
that stores its results. The evaluator turns free-form model output into a character grid. It
classifies the grid's cells, searches a finite state space for a route from `S` to `E`, and
scores the result with capped integer rules. The leaderboard keeps every run per model and
benchmark, and ranks, partitions and renders them.

The modules follow the program's structure:

- `MazeCommon` (Common.dfy): positions, grids, and Python's `strip`, `split('\n')` and `'\n'.join` on strings.
- `MazeConstants` (Constants.dfy): the size limits and the maze alphabet. A `Limits` value carries the
  limits, so one definition serves the split strategic modules (64 x 64, 4096 cells) and their one-file
  copy (32 x 32, 1024 cells).
- `MazeParsing` (Parsing.dfy): fenced-block extraction, the fallback line filter, size checks,
  normalisation, character validation, and the position and count helpers. Each Python loop is a method
  proved equal to a specification function, and the parser's guarantees are lemmas about that function.
- `MazeModel` (StrategicMaze.dfy): the `StrategicMaze` class, whose element tables are filled by a
  row-major scan, and its cell queries.
- `Pathfinding` (Pathfinding.dfy): the `StrategicPathfinder` class. It runs a breadth-first search with an
  explicit `seq` queue and `set` visited set over states (position, keys, switches, used teleporters),
  with the pop cap `rows * cols * 20` and the clock as an oracle.
- `Scoring` (Scoring.dfy): adjacent traps, strategic innovation and route complexity.
- `StrategicEvaluator` (Evaluator.dfy): `grade_strategic_maze` of both copies. It covers the error gating,
  the error kinds, the integer components and the trap-versus-wall penalty.
- `LegacySearch` and `LegacyEvaluator` (LegacySearch.dfy, LegacyEvaluator.dfy): the older multi-key
  evaluator. It has a looser parser, plain BFS reachability, a keys-and-doors search with a 100000-pop cap,
  and a score penalised rather than rejected for size.
- `MultiKeyScenarios` (MultiKeyScenarios.dfy): the three corridor mazes of the multi-key test script,
  and what the legacy evaluator reports for each.
- `Leaderboards` (Leaderboard.dfy): the `Leaderboard` class with add, lookup, benchmark listing and
  removal. It includes the migration of a legacy single-record entry to a list.
- `LeaderboardExports` (LeaderboardExports.dfy): stable descending ranking, the success/failure
  partition, medals, CLI prefixes, name truncation, and the Markdown and CLI texts.

Python's dict insertion order decides the order in which equal scores are ranked, so the leaderboard
table is a sequence of `(model name, benchmark map)` entries with distinct names. Real-valued parts of a
score (base-2 logarithm, square root, division) are exact reals or function parameters. Number
formatting and `str.title()`/`str.upper()` are function parameters.

The model keeps these behaviours of the code as written:

- `'B'` is a door opened by key `b` in the strategic search.
- `'s'` is collected as a key as well as recorded as a switch.
- The fallback parser drops lines that start with `##`.
- Push landings and teleport landings skip door checks.
- Reaching the pop cap reports no timeout.
- The legacy chain count counts any upper-case letter whose lower case was collected.
- Exporting a named benchmark without results yields only the header.

## Model

| member | source | states |
|---|---|---|
| MazeCommon.ToLower | benchmarks/maze/pathfinding.py:197 | lowering an upper-case letter gives the lower-case letter 32 code points below |
| MazeCommon.TrimStartSpec | benchmarks/maze/maze_parsing.py:71 | `lstrip` removes exactly a white-space prefix and leaves a string that does not start with white space |
| MazeCommon.TrimEndSpec | benchmarks/maze/maze_parsing.py:71 | `rstrip` removes exactly a white-space suffix and leaves a string that does not end with white space |
| MazeCommon.StripSpec | benchmarks/maze/maze_parsing.py:32 | `strip` returns a slice of the input with only white space cut on either side, and its ends are not white space |
| MazeCommon.StripEmptyIffAllSpace | benchmarks/maze/maze_parsing.py:57 | a string strips to empty exactly when it is all white space |
| MazeCommon.StripOfStripped | benchmarks/maze/maze_parsing.py:87 | a string whose ends are not white space is unchanged by `strip` |
| MazeCommon.SplitLines | benchmarks/maze/maze_parsing.py:87 | `split('\n')` always returns at least one piece |
| MazeCommon.SplitLinesNoNewline | benchmarks/maze/maze_parsing.py:87 | no piece of `split('\n')` contains a newline |
| MazeCommon.JoinSplit | benchmarks/maze/maze_parsing.py:81-87 | joining the pieces of a split with newlines gives back the text |
| MazeCommon.SplitJoin | benchmarks/maze/maze_parsing.py:81-87 | splitting newline-free lines joined with newlines gives back the lines |
| MazeCommon.DirectionsAreAdjacent | benchmarks/maze/pathfinding.py:143 | each of the four move offsets leads to a 4-adjacent cell |
| MazeConstants.LimitsAreConsistent | benchmarks/maze/constants.py:7-9 | the cell limit is rows times columns: 64 x 64 = 4096 for the split modules, 32 x 32 = 1024 for the one-file copy |
| MazeConstants.ValidMazeCharsExactly | benchmarks/maze/constants.py:12-18 | the alphabet is `'#'` plus the two letter ranges; the other named entries add nothing |
| MazeConstants.SpaceAndDigitsInvalid | benchmarks/maze/constants.py:12-18 | space and the digits are outside the alphabet |
| MazeParsing.CloseFrom | benchmarks/maze/maze_parsing.py:61-62 | a found closing fence lies at or after the search start and inside the text |
| MazeParsing.FenceAt | benchmarks/maze/maze_parsing.py:61-62 | a fence match's body lies after its opening line and before a closing fence inside the text |
| MazeParsing.FirstFenceFrom | benchmarks/maze/maze_parsing.py:61-62 | the leftmost fence match's body lies inside the text |
| MazeParsing.CloseFromSpec | benchmarks/maze/maze_parsing.py:61 | the closing search finds the first `"\n```"` at or after the body start, or reports there is none |
| MazeParsing.FenceAtSpec | benchmarks/maze/maze_parsing.py:61 | a fenced body follows "```markdown\n" or "```\n" and ends at the first later `"\n```"` (the lazy body) |
| MazeParsing.FirstFenceLeftmost | benchmarks/maze/maze_parsing.py:62 | the search returns the match at the leftmost position, and none when no position matches |
| MazeParsing.FallbackLinesStep | benchmarks/maze/maze_parsing.py:70-76 | one more input line appends its stripped form exactly when the filter accepts it |
| MazeParsing.FallbackLinesAppend | benchmarks/maze/maze_parsing.py:70-76 | the fallback filter keeps lines in input order (it distributes over concatenation) |
| MazeParsing.FallbackLinesSingle | benchmarks/maze/maze_parsing.py:71-76 | a single line is kept, stripped, exactly when the filter accepts its stripped form |
| MazeParsing.HeadingLinesDropped | benchmarks/maze/maze_parsing.py:75 | a line starting with "##" after stripping is dropped |
| MazeParsing.TimeLinesDropped | benchmarks/maze/maze_parsing.py:75 | a line starting with "time:" in any ASCII case is dropped |
| MazeParsing.FallbackLinesKept | benchmarks/maze/maze_parsing.py:70-76 | every kept line passes the filter and is the stripped form of some input line |
| MazeParsing.FallbackLinesClean | benchmarks/maze/maze_parsing.py:70-76 | kept lines are non-blank, already stripped and newline-free |
| MazeParsing.FallbackRowsSurvive | benchmarks/maze/maze_parsing.py:81-87 | joining the kept lines and splitting them into rows again yields exactly the kept lines |
| MazeParsing.MaxLen | benchmarks/maze/maze_parsing.py:38 | the width is at least every row's length and equals some row's length (0 for no rows) |
| MazeParsing.Spaces | benchmarks/maze/maze_parsing.py:45 | `' ' * n` has length n and holds only spaces |
| MazeParsing.PadRows | benchmarks/maze/maze_parsing.py:41-47 | padding keeps the number and order of rows |
| MazeParsing.PadRowsShape | benchmarks/maze/maze_parsing.py:41-47 | every padded row has exactly the target width, starts with its original text and continues with spaces |
| MazeParsing.InvalidCells | benchmarks/maze/maze_parsing.py:11-18 | the reported cells are exactly those holding a character that is neither in the alphabet nor a space |
| MazeParsing.ValidateMazeCharacters | benchmarks/maze/maze_parsing.py:11-21 | the nested loop collects exactly the offending cells |
| MazeParsing.InvalidCellsEmptyIff | benchmarks/maze/maze_parsing.py:17-21 | validation passes exactly when every cell is in the alphabet or a space |
| MazeParsing.NormalizeMazeGrid | benchmarks/maze/maze_parsing.py:24-49 | the loop computes the normalisation function: the error for no rows, else the padded rows |
| MazeParsing.NormalizeShape | benchmarks/maze/maze_parsing.py:24-49 | normalising fails (no rows after cleaning) exactly when every row is blank; otherwise each cleaned row, in order, is padded with spaces to the longest cleaned length |
| MazeParsing.CleanRowsStripped | benchmarks/maze/maze_parsing.py:32 | every cleaned row is non-blank and stripped |
| MazeParsing.CleanRowsFixed | benchmarks/maze/maze_parsing.py:32 | non-blank stripped rows pass through cleaning unchanged |
| MazeParsing.CleanRowsIdempotent | benchmarks/maze/maze_parsing.py:32 | cleaning twice equals cleaning once, so normalisation sees exactly the parser's raw rows |
| MazeParsing.CleanRowsEmptyIff | benchmarks/maze/maze_parsing.py:32-35 | cleaning removes every row exactly when all rows are blank |
| MazeParsing.StripIdempotent | benchmarks/maze/maze_parsing.py:87 | stripping twice equals stripping once |
| MazeParsing.StripKeepsNoNewline | benchmarks/maze/maze_parsing.py:87 | stripping a newline-free string keeps it newline-free |
| MazeParsing.SplitLinesFirst | benchmarks/maze/maze_parsing.py:87 | text starting with a non-newline character has a non-empty first piece starting with that character |
| MazeParsing.RowsFromNonBlankText | benchmarks/maze/maze_parsing.py:87-90 | text starting with a non-blank character yields at least one raw row |
| MazeParsing.MazeTextRows | benchmarks/maze/maze_parsing.py:83-90 | any non-empty extracted text yields raw rows, and they are already clean |
| MazeParsing.ExtractMazeText | benchmarks/maze/maze_parsing.py:57-84 | the extraction loop computes the extraction function: blank input, the stripped fenced body, or the joined fallback lines |
| MazeParsing.ParseMazeFromText | benchmarks/maze/maze_parsing.py:52-109 | the whole parser computes the parse function under the given limits |
| MazeParsing.EmptyInputIffBlank | benchmarks/maze/maze_parsing.py:57-58 | the empty-input error is raised exactly for blank input |
| MazeParsing.ParseNeverLosesAllRows | benchmarks/maze/maze_parsing.py:83-90 | neither "no rows" error can be raised once extraction succeeded |
| MazeParsing.CheckRowsNeverTooLarge | benchmarks/maze/maze_parsing.py:93-101 | with consistent limits the cell-count check never fires on the raw rows |
| MazeParsing.CellCheckSubsumed | benchmarks/maze/maze_parsing.py:93-101 | with consistent limits the parser never reports "too large" |
| MazeParsing.CheckRowsSizeFirst | benchmarks/maze/maze_parsing.py:93-107 | a character error is only reported for rows whose size is within the limits |
| MazeParsing.SizeCheckedBeforeCharacters | benchmarks/maze/maze_parsing.py:93-107 | a character error from the parser implies the raw rows passed both size checks |
| MazeParsing.CheckRowsSuccess | benchmarks/maze/maze_parsing.py:93-109 | checks that pass give a rectangle within the limits over the alphabet, each row keeping its first character |
| MazeParsing.CheckRowsKeepsRows | benchmarks/maze/maze_parsing.py:87-90 | clean non-empty raw rows never fail for lack of rows, whatever the limits |
| MazeParsing.ParseSuccess | benchmarks/maze/maze_parsing.py:52-109 | a successful parse is a non-empty rectangle within the limits, over the alphabet, with no row starting in white space |
| MazeParsing.Occurrences | benchmarks/maze/maze_parsing.py:121-132 | the listed cells are exactly the cells holding the target |
| MazeParsing.RowOccurrencesMembers | benchmarks/maze/maze_parsing.py:128-130 | one row's scan lists exactly its cells holding the target |
| MazeParsing.GridOccurrencesMembers | benchmarks/maze/maze_parsing.py:127-130 | the scan of the first i rows lists exactly their cells holding the target |
| MazeParsing.RowOccurrencesOrdered | benchmarks/maze/maze_parsing.py:128-130 | one row's occurrences are listed left to right |
| MazeParsing.GridOccurrencesOrdered | benchmarks/maze/maze_parsing.py:127-130 | occurrences in the first i rows are in strict row-major order |
| MazeParsing.OccurrencesRowMajor | benchmarks/maze/maze_parsing.py:127-130 | all occurrences are listed in strict row-major order |
| MazeParsing.CountOf | benchmarks/maze/maze_parsing.py:149-152 | the count is zero exactly when no cell holds the character |
| MazeParsing.FirstPosition | benchmarks/maze/maze_parsing.py:112-118 | the result is (-1, -1) exactly when the target is absent; otherwise a cell holding it with none before it in row-major order |
| MazeParsing.FirstPositionIs | benchmarks/maze/maze_parsing.py:112-118 | a cell holding the target with no earlier one is the position found |
| MazeParsing.FirstPositionByRows | benchmarks/maze/maze_parsing.py:112-118 | a cell holding the target, with the target absent from every earlier row and from its own row before it, is the position found |
| MazeParsing.FindPosition | benchmarks/maze/maze_parsing.py:112-118 | the early-return loop returns the first row-major occurrence, or (-1, -1) |
| MazeParsing.FindAllPositions | benchmarks/maze/maze_parsing.py:121-132 | one entry per requested character, listing exactly its cells in row-major order |
| MazeParsing.RowPositions | benchmarks/maze/maze_parsing.py:128-130 | one row of the scan appends exactly that row's occurrences of each target, left to right |
| MazeParsing.AddZeroes | benchmarks/maze/maze_parsing.py:144-147 | the set-up loop adds a zero entry for every character of the range and keeps the other entries |
| MazeParsing.CountElements | benchmarks/maze/maze_parsing.py:135-154 | the keys are exactly the tracked characters, and each maps to its exact count, zero included |
| MazeParsing.RowCounts | benchmarks/maze/maze_parsing.py:150-152 | one row of the scan adds exactly that row's occurrences to each tracked count and adds no key |
| MazeModel.AnalyzeElements | benchmarks/maze/strategic_maze.py:28-58 | the nested loop records exactly what the row-major scan records |
| MazeModel.StrategicMaze.constructor | benchmarks/maze/strategic_maze.py:13-26 | rows is the row count, cols is the first row's length (0 for no rows), and the element tables come from the scan |
| MazeModel.StrategicMaze.GetCell | benchmarks/maze/strategic_maze.py:70-75 | the in-grid character, a space past the last row or column, and Python's wrap-around for negative indices |
| MazeModel.StrategicMaze.IsTraversable | benchmarks/maze/strategic_maze.py:65-68 | a position is traversable exactly when it is in the grid and `get_cell` does not report a wall there |
| MazeModel.StrategicMaze.IsWall | benchmarks/maze/strategic_maze.py:60-63 | inside the grid a wall is exactly a cell that is not traversable; a column past the end of its row counts as a wall |
| MazeModel.StrategicMaze.TeleportDestinations | benchmarks/maze/strategic_maze.py:77-83 | a position that is not a recorded origin has no destinations, and every destination is a recorded `Q` cell |
| MazeModel.StrategicMaze.TeleportDestinationsAtMostOne | benchmarks/maze/strategic_maze.py:77-83 | a non-origin position has no destination; otherwise there is at most one, and it is a recorded `'Q'` cell |
| MazeModel.Truncate | benchmarks/maze/strategic_maze.py:30-33 | the scanned view of the grid keeps every row, cut at the first row's width |
| MazeModel.TruncateCell | benchmarks/maze/strategic_maze.py:30-35 | a cell of the scanned view is the same cell of the grid |
| MazeModel.TruncateRectangular | benchmarks/maze/strategic_maze.py:30-33 | on a rectangular grid the scan sees every cell |
| MazeModel.IndexMapAt | benchmarks/maze/strategic_maze.py:39-42 | numbering a repeat-free list gives its k-th element the number k, one key per element |
| MazeModel.OccurrencesDistinct | benchmarks/maze/strategic_maze.py:39-42 | occurrence lists have no repeats |
| MazeModel.ScanRowTele | benchmarks/maze/strategic_maze.py:39-42 | scanning a row numbers its teleporter cells after those found before |
| MazeModel.ScanRowSwitches | benchmarks/maze/strategic_maze.py:45-46 | scanning a row adds exactly its `'s'` cells to the switches |
| MazeModel.ScanRowBlocks | benchmarks/maze/strategic_maze.py:49-50 | scanning a row appends its `'B'` cells in order |
| MazeModel.ScanRowLetter | benchmarks/maze/strategic_maze.py:53-58 | after a row, a bonus-exit or conditional-door letter maps to its last occurrence so far |
| MazeModel.RecordLetter | benchmarks/maze/strategic_maze.py:53-58 | recording one cell overwrites the letter's entry exactly when the cell holds that letter |
| MazeModel.ScanRowLetterKeys | benchmarks/maze/strategic_maze.py:53-58 | the bonus-exit table holds only F, G, H and the door table only X, Y, Z |
| MazeModel.ScanRowsTele | benchmarks/maze/strategic_maze.py:30-42 | the i-th `'O'` (or `'Q'`) found in row-major order gets number i |
| MazeModel.ScanRowsSwitches | benchmarks/maze/strategic_maze.py:30-46 | the switches are exactly the scanned `'s'` cells |
| MazeModel.ScanRowsBlocks | benchmarks/maze/strategic_maze.py:30-50 | the movable blocks list every scanned `'B'` in row-major order |
| MazeModel.ScanRowsLetter | benchmarks/maze/strategic_maze.py:30-58 | a letter is present exactly when it occurs, and maps to its last row-major occurrence |
| MazeModel.ScanRowsLetterKeys | benchmarks/maze/strategic_maze.py:53-58 | the letter tables hold only their own letters |
| MazeModel.ScanMatchesOccurrences | benchmarks/maze/strategic_maze.py:28-58 | the whole scan: teleporters numbered by discovery index, exactly the switches, every block in order, and letter tables holding the last occurrences |
| MazeModel.ScanTables | benchmarks/maze/strategic_maze.py:38-50 | both teleporter tables number their cells by row-major discovery, the switches are exactly the `s` cells and the blocks are every `B` cell in row-major order |
| MazeModel.ScanBonusExits | benchmarks/maze/strategic_maze.py:52-54 | a bonus-exit letter is recorded exactly when it occurs, at its last occurrence in row-major order |
| MazeModel.ScanConditionalDoors | benchmarks/maze/strategic_maze.py:56-58 | a conditional-door letter is recorded exactly when it occurs, at its last occurrence in row-major order |
| MazeModel.DestinationTable | benchmarks/maze/strategic_maze.py:41-42 | the destination table holds only `Q` cells of the grid, and no two share a number |
| MazeModel.ScanRectangular | benchmarks/maze/strategic_maze.py:28-58 | on a rectangular grid, origins and destinations are numbered 0..n-1 without gaps, and switches and blocks are exactly the grid's cells |
| MazeModel.LetterTablesSmall | benchmarks/maze/strategic_maze.py:53-58 | each letter table has at most 3 entries |
| MazeModel.RowOccurrencesSamePrefix | benchmarks/maze/strategic_maze.py:31-33 | the scan depends only on the columns it visits |
| Pathfinding.AfterSnoc | benchmarks/maze/pathfinding.py:143-182 | trying one more candidate is one more step of the exploration |
| Pathfinding.StrategicPathfinder.constructor | benchmarks/maze/pathfinding.py:15-18 | the pathfinder takes the maze's rows and cols |
| Pathfinding.StrategicPathfinder.QueueState | benchmarks/maze/pathfinding.py:213-218 | an unvisited state is marked visited and enqueued with its extended path; a visited one changes nothing |
| Pathfinding.StrategicPathfinder.ExplorePossibleMoves | benchmarks/maze/pathfinding.py:137-182 | the queue gains exactly the admitted candidates (walks, then a teleport, then pushes); the visited set gains every candidate; teleports count admitted jumps and block moves count every push tried |
| Pathfinding.StrategicPathfinder.ExploreWalks | benchmarks/maze/pathfinding.py:143-148 | the four walk candidates are tried in the source's direction order |
| Pathfinding.StrategicPathfinder.TryWalk | benchmarks/maze/pathfinding.py:144-148 | one direction adds the walk candidate exactly when the move rules allow it, and the iteration count is unchanged |
| Pathfinding.StrategicPathfinder.ExploreTeleport | benchmarks/maze/pathfinding.py:150-163 | a jump is tried only from an unused `'O'`, to its traversable paired destination |
| Pathfinding.StrategicPathfinder.ExplorePushes | benchmarks/maze/pathfinding.py:165-182 | the four push candidates are tried in direction order, only from a `'B'` cell |
| Pathfinding.StrategicPathfinder.TryPush | benchmarks/maze/pathfinding.py:167-182 | a push lands two cells away when the middle cell is a space and the landing cell is traversable, without door checks |
| Pathfinding.StrategicPathfinder.Solve | benchmarks/maze/pathfinding.py:20-135 | at most rows*cols*20 pops, and the clock was quiet before each of them; a timeout happens only when the clock fires before a pop below the cap, so reaching the cap is no timeout; a timeout or failure reports an empty path, no keys and chain 0; without a timeout the outcome holds: a solved path is the start followed by the cells of a run of moves (walks under the move rules, teleports, pushes) ending on `end`, its keys and switches are those on the path before the end and the chain counts the unlocked door letters on it, while an unsolved search means `end` is unreachable or at least rows*cols*20 distinct states are reachable; below the cap, unsolved means unreachable; no state is enqueued twice |
| Pathfinding.StrategicPathfinder.Search | benchmarks/maze/pathfinding.py:66-107 | at most rows*cols*20 pops, each after a quiet clock check; it reports a timeout only when the clock fires before a pop below the cap; a found entry ends on `end` and its path is the start plus the cells of a run of moves whose keys and switches it carries; without the clock, an unsolved search means `end` is unreachable by any run of moves or at least rows*cols*20 distinct states are reachable, and a dry queue below the cap means unreachable |
| Pathfinding.StrategicPathfinder.Pop | benchmarks/maze/pathfinding.py:79-107 | one iteration counts one pop; it either stops on an entry at `end` reached by a run of moves, or keeps the search invariant (queue entries derived by runs of moves, every enqueued state reachable, popped states closed) |
| Pathfinding.StrategicPathfinder.Expand | benchmarks/maze/pathfinding.py:91-107 | the queue gains exactly the admitted moves of the state, the visited set gains every candidate state, and the pop count is unchanged |
| Pathfinding.StrategicPathfinder.SummarizePath | benchmarks/maze/pathfinding.py:110-123 | the chain counts distinct plain-door letters on the path whose key is held; teleports count used origins on the path |
| Pathfinding.PushFromSnoc | benchmarks/maze/pathfinding.py:166-182 | one more direction adds its push candidate exactly when the push conditions hold |
| Pathfinding.NoPushesOffBlocks | benchmarks/maze/pathfinding.py:166 | no push is possible from a cell that is not `'B'` |
| Pathfinding.AfterVisited | benchmarks/maze/pathfinding.py:143-218 | after exploring, the visited set gained exactly the candidate states |
| Pathfinding.AfterAdmits | benchmarks/maze/pathfinding.py:143-218 | after exploring, the queue and history gained exactly the admitted candidates, and the counters rose accordingly |
| Pathfinding.AdmitFacts | benchmarks/maze/pathfinding.py:213-218 | admitted states are new and distinct; every candidate state is either old or admitted |
| Pathfinding.WalkShape | benchmarks/maze/pathfinding.py:143-148 | every walk candidate is a legal move to a neighbour |
| Pathfinding.PushShape | benchmarks/maze/pathfinding.py:166-182 | every push candidate is a legal two-cell push |
| Pathfinding.CandidateShape | benchmarks/maze/pathfinding.py:137-182 | every candidate is a legal walk, jump or push |
| Pathfinding.SuccessorSets | benchmarks/maze/pathfinding.py:91-101 | successors carry the popped state's keys plus its cell's key and its switches plus its cell's switch; the sets only grow; only a teleport, from an unused `'O'`, adds a used origin |
| Pathfinding.WalkRules | benchmarks/maze/pathfinding.py:184-211 | a walk enters an in-grid non-wall cell; a plain door needs its key; X needs two keys, Y a switch, and Z a key and a switch |
| Pathfinding.IsValidMove | benchmarks/maze/pathfinding.py:184-211 | a cell can be entered exactly when it is in the grid and not a wall, a plain door's key is held, X has two keys, Y a pressed switch, and Z a key and a pressed switch |
| Pathfinding.ValidMoveMonotone | benchmarks/maze/pathfinding.py:184-211 | more keys and switches never invalidate a move |
| Pathfinding.KeysOnSnoc | benchmarks/maze/pathfinding.py:94-100 | stepping on a cell adds its lower-case letter to the keys and its `'s'` position to the switches |
| Pathfinding.ExtendSteps | benchmarks/maze/pathfinding.py:143-182 | extending a path of neighbour and teleport steps by a candidate's steps keeps it one |
| Pathfinding.ExtendKeys | benchmarks/maze/pathfinding.py:91-101 | a successor's keys and switches are those on its path before its end |
| Pathfinding.ExtendEntry | benchmarks/maze/pathfinding.py:104-107 | queue entries stay consistent with their paths across a successor |
| Pathfinding.InitialDerived | benchmarks/maze/pathfinding.py:34-36 | the start state with path `[start]` is the empty run, so it is derived and reachable |
| Pathfinding.ExtendRun | benchmarks/maze/pathfinding.py:137-182 | a move from the state a run reaches extends the run, ends on the move's state and appends the move's cells |
| Pathfinding.ExtendDerived | benchmarks/maze/pathfinding.py:213-218 | an entry enqueued for a move from a derived entry is derived |
| Pathfinding.ExtendReachable | benchmarks/maze/pathfinding.py:213-218 | a successor of a reachable state is reachable |
| Pathfinding.DerivedRoute | benchmarks/maze/pathfinding.py:82-89 | a derived entry's state is reachable and its path is a run of moves from the start to its cell |
| Pathfinding.RunStepsOffWalls | benchmarks/maze/pathfinding.py:137-211 | no cell a run of moves passes through is a wall |
| Pathfinding.MoveRouteOffWalls | benchmarks/maze/pathfinding.py:137-211 | a run-of-moves path starts at the start and never enters a wall after it |
| Pathfinding.ReachAfterExplore | benchmarks/maze/pathfinding.py:103-107 | exploring a reachable state enqueues only reachable states |
| Pathfinding.QueueAfterExplore | benchmarks/maze/pathfinding.py:79-107 | popping and exploring keeps every queue entry in step with the history and derived from the start by a run of moves, with the keys and switches on its path |
| Pathfinding.HistoryAfterExplore | benchmarks/maze/pathfinding.py:213-218 | the visited set stays exactly the set of states ever enqueued |
| Pathfinding.ClosedAfterExplore | benchmarks/maze/pathfinding.py:80-107 | every popped non-end state has all its successors visited |
| Pathfinding.ExploreKeepsInv | benchmarks/maze/pathfinding.py:66-107 | one iteration of the search loop preserves the search invariant |
| Pathfinding.RunStaysVisited | benchmarks/maze/pathfinding.py:66-107 | once the queue is empty, every run of moves from the start stays among visited states that are not at `end` |
| Pathfinding.CapMeansMany | benchmarks/maze/pathfinding.py:63-66 | a search that enqueued at least `n` distinct states has `n` distinct reachable states, so a cap of `n` pops only stops a search with that many |
| Pathfinding.SolvableIffReachable | benchmarks/maze/pathfinding.py:20-135 | when the cap cannot cut the search short, a search that did not time out is solved exactly when some run of moves reaches `end` |
| Pathfinding.ExhaustedMeansUnreachable | benchmarks/maze/pathfinding.py:66-89 | an exhausted queue means no run of moves from the start reaches `end` |
| Pathfinding.UnlockedDoorsStep | benchmarks/maze/pathfinding.py:111-119 | one more path cell adds its letter to the chain exactly when it is a plain door with its key held, counting each letter once |
| Pathfinding.ChainAtMostKeys | benchmarks/maze/pathfinding.py:110-119 | the chain is never longer than the number of keys held |
| Pathfinding.LowerInjective | benchmarks/maze/pathfinding.py:118 | distinct door letters need distinct keys |
| Scoring.TrapsAround | benchmarks/maze/scoring_analysis.py:16-22 | at most one trap per direction examined |
| Scoring.TrapSumRemove | benchmarks/maze/scoring_analysis.py:14-22 | the trap total is one cell's neighbouring traps plus the total over the other cells |
| Scoring.CountAdjacentTraps | benchmarks/maze/scoring_analysis.py:10-24 | the loop sums the in-bounds `'T'` neighbours of every path cell, so a trap next to k path cells counts k times |
| Scoring.TrapsNear | benchmarks/maze/scoring_analysis.py:16-22 | the four directions add exactly the in-bounds `T` neighbours of one cell |
| Scoring.TrapSumBound | benchmarks/maze/scoring_analysis.py:10-24 | the total is at most 4 per path cell |
| Scoring.TrapsAroundZero | benchmarks/maze/scoring_analysis.py:16-22 | a cell contributes 0 exactly when no in-bounds neighbour is a trap |
| Scoring.TrapSumZeroIff | benchmarks/maze/scoring_analysis.py:10-24 | the total is 0 exactly when no path cell has a neighbouring trap |
| Scoring.TrapSumUnion | benchmarks/maze/scoring_analysis.py:10-24 | totals over disjoint cell sets add |
| Scoring.TrapSumSingle | benchmarks/maze/scoring_analysis.py:14-22 | the total over one cell is its neighbouring trap count |
| Scoring.CountReached | benchmarks/maze/scoring_analysis.py:59-70 | the loop counts the table letters whose cell lies on the path |
| Scoring.AnalyzeStrategicInnovation | benchmarks/maze/scoring_analysis.py:27-75 | the analysis computes the innovation score: capped teleport and switch points, and on a solved maze 25 per bonus exit and 30 per conditional door on the path |
| Scoring.ReachedSmall | benchmarks/maze/scoring_analysis.py:59-70 | no more letters are reached than the table holds |
| Scoring.InnovationBounded | benchmarks/maze/scoring_analysis.py:40-70 | at most 3 bonus exits and 3 doors count, so innovation is at most 60+80+75+90 = 305 |
| Scoring.InnovationUnsolved | benchmarks/maze/scoring_analysis.py:55 | on an unsolved maze no exit or door counts, and innovation is at most 140 |
| Scoring.InnovationZeroIff | benchmarks/maze/scoring_analysis.py:40-70 | innovation is 0 exactly when there were no teleports and no switch presses and, if solved, no bonus exit or conditional door lies on the path |
| Scoring.RowKeysAndDoors | benchmarks/maze/scoring_analysis.py:106-110 | a row contributes at most one per scanned column |
| Scoring.KeysAndDoors | benchmarks/maze/scoring_analysis.py:104-110 | the count is at most one per scanned cell |
| Scoring.AnalyzeRouteComplexity | benchmarks/maze/scoring_analysis.py:78-119 | the nested loop computes the route-complexity function |
| Scoring.RouteComplexityBounds | benchmarks/maze/scoring_analysis.py:87-112 | the score is at most 150 + 100 = 250; an unsolved maze scores 0 with zero details; a solved maze scores 0 exactly when it has no strategic elements and no keys or plain doors |
| Scoring.KeysAndDoorsNone | benchmarks/maze/scoring_analysis.py:103-110 | a grid without keys or plain doors counts 0 |
| Scoring.RowKeysAndDoorsNone | benchmarks/maze/scoring_analysis.py:106-110 | a row without keys or plain doors counts 0 |
| StrategicEvaluator.ErrorTypeOf | benchmarks/maze/strategic_evaluator.py:222-235 | a parsing failure is tagged "parsing", an unexpected exception "evaluation", and no other failure is tagged |
| StrategicEvaluator.GradedFactsIntro | benchmarks/maze/strategic_evaluator.py:62-125 | the component equations establish the graded facts |
| StrategicEvaluator.GradeGrid | benchmarks/maze/strategic_evaluator.py:28-125 | each -100 gate fires exactly when its condition holds and the earlier gates passed: empty grid, no S, no E, S count other than 1 (reporting the count), E count other than 1; a grid with one S and one E is graded unless the clock fires before a pop below the cap, or it has no cells (unexpected); a graded result satisfies every component equation, reports the search result on the maze built from the grid, and its innovation and route complexity are the analyses of that maze and result |
| StrategicEvaluator.SolveAndScore | benchmarks/maze/strategic_evaluator.py:56-125 | a solving timeout only when the clock fired before a pop below the cap; unexpected exactly on a grid with no cells; otherwise graded with every component equation, the search outcome, and innovation and route complexity analysed from the maze and the search result |
| StrategicEvaluator.GradedSearchMeaning | benchmarks/maze/strategic_evaluator.py:56-114 | on a graded result, a solved route is a run of moves from the `S` to the `E` that never enters a wall, the chain score is 50 per door letter on it that the collected keys open, and, unless 20 pops per cell could cut the search short, completion is 50 exactly when the `E` is reachable |
| StrategicEvaluator.GradeDetermined | benchmarks/maze/strategic_evaluator.py:62-125 | the component, search and analysis facts determine a graded result completely: the same grid, maze and search result give the same grade and score |
| StrategicEvaluator.ScoreSolution | benchmarks/maze/strategic_evaluator.py:62-125 | a non-empty grid is graded with the component equations, reporting the search result, with innovation and route complexity analysed from the maze and that result; an empty one fails as unexpected |
| StrategicEvaluator.ScoreComponents | benchmarks/maze/strategic_evaluator.py:62-114 | the ten components satisfy their equations for the given search result; innovation and route complexity are the analyses of the maze and the result, so the bonus objectives are 75 per bonus exit on the route |
| StrategicEvaluator.Total | benchmarks/maze/strategic_evaluator.py:116-161 | a grid of at least one cell is graded with the penalised total of the given components, kept unchanged; an empty one fails as unexpected, as the report's unguarded division does |
| StrategicEvaluator.AmbitionScore | benchmarks/maze/strategic_evaluator.py:66-76 | ambition is 100 * log2(size) (0 for size 0) plus the strategic bonus 10/15/20/25 per origin, switch, bonus exit and conditional door |
| StrategicEvaluator.PathScores | benchmarks/maze/strategic_evaluator.py:91-114 | path efficiency is the path share of the grid (solved only); completion is 50 exactly when solved; danger is min(5 * traps, 30); bonus is 75 per bonus exit reached |
| StrategicEvaluator.GradeStrategicMaze | benchmarks/maze/strategic_evaluator.py:20-235 | a parse error is reported as a parsing failure exactly when parsing fails; on a parsed grid each S/E gate fires exactly when its condition holds in the source's order; one S and one E give a graded result or a timeout, and a timeout only when the clock fires before a pop below the cap; a graded result satisfies the component equations and carries the search outcome and analyses on the maze built from the grid |
| StrategicEvaluator.ParsedGridNonEmpty | benchmarks/maze/strategic_evaluator.py:26-29 | a parsed grid is never empty, so the "No valid maze" branch is unreachable |
| StrategicEvaluator.GradeMaze | benchmarks/maze/strategic_evaluator.py:239-241 | the compatibility entry point grades under the 64 x 64 limits |
| StrategicEvaluator.GradeMazeFixed | benchmarks/maze/strategic_evaluator_fixed.py:798-800 | the one-file copy grades under the 32 x 32 limits |
| StrategicEvaluator.LargerLimitsAcceptMore | benchmarks/maze/maze_parsing.py:93-101 | text accepted under smaller limits parses to the same grid under larger ones |
| StrategicEvaluator.FixedAcceptsLess | benchmarks/maze/strategic_evaluator_fixed.py:17-19 | every maze the one-file copy accepts, the split evaluator accepts with the same grid |
| StrategicEvaluator.TallMazeSeparatesCopies | benchmarks/maze/strategic_evaluator_fixed.py:194-195 | a maze of more than 32 rows that the split evaluator accepts is rejected by the copy as too tall |
| StrategicEvaluator.PenaltyScales | benchmarks/maze/strategic_evaluator.py:117-125 | the total is 0.75 * base exactly when traps exceed twice the walls, and the base otherwise |
| StrategicEvaluator.StrategicBonusCounts | benchmarks/maze/strategic_evaluator.py:70-75 | on a rectangular grid, the bonus is 10 per `'O'`, 15 per `'s'`, 20 per bonus-exit letter and 25 per door letter present |
| LegacySearch.Cells | benchmarks/maze/evaluator.py:85 | the cell set is exactly the in-grid positions |
| LegacySearch.AdjacentDirection | benchmarks/maze/evaluator.py:82 | every 4-adjacent cell is reached by one of the four offsets |
| LegacySearch.ExtendOpenWalk | benchmarks/maze/evaluator.py:82-89 | reachability extends by one open step |
| LegacySearch.ClosedHoldsWalk | benchmarks/maze/evaluator.py:77-89 | a set closed under open steps holds every walk from its members |
| LegacySearch.FloodNeighbours | benchmarks/maze/evaluator.py:82-89 | the inner loop marks and enqueues exactly the new open neighbours, all reachable |
| LegacySearch.FloodStep | benchmarks/maze/evaluator.py:77-89 | one iteration of the flood loop keeps its invariant |
| LegacySearch.BfsReachable | benchmarks/maze/evaluator.py:67-91 | the result is exactly the set of cells reachable from start through `' '`, S, E, K, D cells |
| LegacySearch.ClosedIsReach | benchmarks/maze/evaluator.py:67-91 | a reachable set closed under open steps is the reachable set |
| LegacySearch.BfsReachableFromSet | benchmarks/maze/evaluator.py:94-112 | searches from the target when it is a start, from a Manhattan-closest start otherwise, and returns the empty set for no starts |
| LegacySearch.StatesOf | benchmarks/maze/evaluator.py:145-149 | the queue's states, entry by entry |
| LegacySearch.InitialInv | benchmarks/maze/evaluator.py:144-146 | the start state alone satisfies the search invariant |
| LegacySearch.EntryInGrid | benchmarks/maze/evaluator.py:156 | a queued position is in the grid, so `grid[r][c]` is safe |
| LegacySearch.KeysOnPrefix | benchmarks/maze/evaluator.py:160-161 | the keys on a path prefix do not depend on later cells |
| LegacySearch.ExtendEntry | benchmarks/maze/evaluator.py:157-185 | a successor entry's keys are those on its path before its end |
| LegacySearch.GrowOne | benchmarks/maze/evaluator.py:183-185 | enqueuing one new state keeps the expansion bookkeeping |
| LegacySearch.ExpandState | benchmarks/maze/evaluator.py:156-185 | the expansion enqueues exactly the new legal successors: in bounds, not a wall, a door only with its key |
| LegacySearch.TryNeighbour | benchmarks/maze/evaluator.py:240-259 | one direction marks and queues the neighbour's state with its route exactly when the neighbour is enterable and the state is new |
| LegacySearch.StatesOfPop | benchmarks/maze/evaluator.py:149 | popping removes the first state |
| LegacySearch.HistoryAfterPop | benchmarks/maze/evaluator.py:148-185 | popped states followed by queued states is the enqueue history |
| LegacySearch.QueueAfterPop | benchmarks/maze/evaluator.py:149 | the rest of the queue stays consistent |
| LegacySearch.SearchStep | benchmarks/maze/evaluator.py:148-185 | one iteration of the search loop preserves the search invariant |
| LegacySearch.WalkStaysVisited | benchmarks/maze/evaluator.py:148-187 | once the queue is empty, every key walk from the start stays among visited non-end states |
| LegacySearch.RouteGivesWalk | benchmarks/maze/evaluator.py:160-185 | every key route induces a state walk |
| LegacySearch.ExhaustedMeansNoRoute | benchmarks/maze/evaluator.py:148-187 | an exhausted queue means no key route exists |
| LegacySearch.StateSpaceBound | benchmarks/maze/evaluator.py:211-223 | the reachable states number at most (cells + 1) * 2^keys |
| LegacySearch.GrowWithinSpace | benchmarks/maze/evaluator.py:255-259 | visited states stay within the state space |
| LegacySearch.GetStatefulPath | benchmarks/maze/evaluator.py:135-187 | a non-empty result is the cell set of a key route with the keys collected before its end; an empty result means no key route exists |
| LegacySearch.ChainDoorsStep | benchmarks/maze/evaluator.py:266-273 | one more path cell adds its upper-case letter exactly when its lower case is held, counting each letter once |
| LegacySearch.CountChain | benchmarks/maze/evaluator.py:264-273 | the loop counts the distinct upper-case letters on the path whose lower case is held |
| LegacySearch.PoppedWithin | benchmarks/maze/evaluator.py:223-225 | popped states are distinct and visited |
| LegacySearch.RouteInGrid | benchmarks/maze/evaluator.py:243 | every cell of a key route is in the grid |
| LegacySearch.SolveMazeGraph | benchmarks/maze/evaluator.py:189-281 | at most 100000 distinct pops; a solved path is a key route from S to E with the keys collected before its end; an unsolved result is empty and, below the cap, no key route exists; the chain is the distinct unlocked upper-case letters |
| LegacySearch.VisitHead | benchmarks/maze/evaluator.py:224-259 | a non-goal pop expands the head state and keeps the search invariant, with the head appended to the popped states |
| LegacySearch.VisitDoor | benchmarks/maze/evaluator.py:267-273 | an upper-case letter is recorded once, and counts exactly when it is new and its lower-case key is held |
| LegacySearch.ChainBounds | benchmarks/maze/evaluator.py:264-273 | the chain is at most the number of keys and of distinct upper-case letters on the path |
| LegacySearch.KeysOnWithin | benchmarks/maze/evaluator.py:236-237 | collected keys are keys of the grid |
| LegacySearch.KeysOnGrow | benchmarks/maze/evaluator.py:235-237 | keys only grow along a path |
| LegacySearch.KeysOnHas | benchmarks/maze/evaluator.py:236-237 | a key lying on a path cell is collected |
| LegacySearch.UppersOnHas | benchmarks/maze/evaluator.py:267-268 | an upper-case letter on a path cell is seen by the chain loop |
| LegacySearch.ExtendRoute | benchmarks/maze/evaluator.py:240-259 | a legal step extends a key route and adds the new cell's key |
| LegacyEvaluator.LegacyFallbackLinesStep | benchmarks/maze/evaluator.py:27-30 | one more line appends its stripped form exactly when it is kept |
| LegacyEvaluator.CleanRowsStep | benchmarks/maze/evaluator.py:38-41 | one more line appends its stripped form exactly when it is non-blank |
| LegacyEvaluator.LegacyParseMazeFromText | benchmarks/maze/evaluator.py:14-43 | the loops compute the legacy parse: an error for empty maze text, else the stripped non-blank rows |
| LegacyEvaluator.LegacyRowsClean | benchmarks/maze/evaluator.py:36-43 | every returned row is non-empty and stripped, without padding |
| LegacyEvaluator.JoinLinesEmptyIff | benchmarks/maze/evaluator.py:31-34 | joining non-empty lines is empty exactly when there are none |
| LegacyEvaluator.LegacyFallbackEmptyIff | benchmarks/maze/evaluator.py:25-31 | the fallback keeps nothing exactly when no stripped line contains `#`, S, E, K, D, T or a space |
| LegacyEvaluator.LegacyFallbackClean | benchmarks/maze/evaluator.py:27-30 | kept lines are non-empty, stripped and newline-free |
| LegacyEvaluator.LegacyFallbackParse | benchmarks/maze/evaluator.py:24-43 | without a fence, parsing fails exactly when no line is kept, and otherwise returns the kept lines |
| LegacyEvaluator.LegacyFencedRoundTrip | benchmarks/maze/evaluator.py:20-43 | a fenced body of clean rows parses back to exactly those rows |
| LegacyEvaluator.JoinedRowsParse | benchmarks/maze/evaluator.py:31-43 | clean rows joined by newlines give a non-empty text whose non-blank lines are exactly those rows |
| LegacyEvaluator.LegacyBlankBlock | benchmarks/maze/evaluator.py:33-43 | a non-empty fenced body of blank lines parses to no rows, the "No valid maze" case |
| LegacyEvaluator.LegacyCountElements | benchmarks/maze/evaluator.py:46-55 | the keys are the seven tracked characters, each mapped to its exact count |
| LegacyEvaluator.SizePenaltyExcess | benchmarks/maze/evaluator.py:297-302 | the penalty is 10 per excess row and column; it is 0 exactly within 32 x 32; each extra row beyond 32 adds 10 |
| LegacyEvaluator.LegacySolve | benchmarks/maze/evaluator.py:189-281 | the solver's result satisfies the route facts |
| LegacyEvaluator.RouteFactsIntro | benchmarks/maze/evaluator.py:312-343 | a grade copying the solution establishes the route facts |
| LegacyEvaluator.LegacyGradeGrid | benchmarks/maze/evaluator.py:294-391 | a grid fails exactly when it has no S; otherwise every component equation holds; a missing E is graded as unsolvable |
| LegacyEvaluator.LegacySolveAndScore | benchmarks/maze/evaluator.py:312-391 | from a found start the grade is always given, and every component equation holds |
| LegacyEvaluator.LegacyScore | benchmarks/maze/evaluator.py:314-358 | the score satisfies the component equations and copies the solution's route data |
| LegacyEvaluator.LegacyGradeMaze | benchmarks/maze/evaluator.py:283-396 | "no maze" exactly on a parse error, "no valid maze" exactly on no rows, "no start" exactly on rows without S; a graded result satisfies every component equation |
| LegacyEvaluator.RouteEndsInGrid | benchmarks/maze/evaluator.py:227-243 | a key route ends in the grid unless it never moved |
| LegacyEvaluator.LegacySolvableIffRoute | benchmarks/maze/evaluator.py:223-231 | below the pop cap, the maze is solvable exactly when a key route from S to E exists |
| LegacyEvaluator.LegacySolvedRoute | benchmarks/maze/evaluator.py:312-340 | a maze with a route is solved with completion 50, and its path, keys and chain come from a key route |
| LegacyEvaluator.LegacyGradedChain | benchmarks/maze/evaluator.py:264-273 | when every route unlocks the same door letters, the chain is their number and complexity is 50 per door |
| LegacyEvaluator.LegacyUnsolved | benchmarks/maze/evaluator.py:312-340 | a maze without a route scores 0 completion, 0 complexity and 0 path efficiency |
| LegacyEvaluator.LegacyComplexityBound | benchmarks/maze/evaluator.py:264-273 | collected keys are keys of the grid, the chain is at most their number, and complexity is at most 50 per grid key |
| LegacyEvaluator.LegacySizePositive | benchmarks/maze/evaluator.py:321-323 | a graded parsed maze has a positive size, so ambition is 100 * log2(size) |
| LegacyEvaluator.LegacyTrapHeavyHalves | benchmarks/maze/evaluator.py:347-354 | the total is half the base when traps outnumber walls, else the base, minus the size penalty |
| MultiKeyScenarios.CorridorPrefix | test_multikey.py:20-28 | a route starting in a corridor stays in it until it first reaches the corridor's end cell |
| MultiKeyScenarios.CorridorExit | test_multikey.py:20-28 | a route leaving the corridor row passes through the corridor's end cell |
| MultiKeyScenarios.DoorIsLink | test_multikey.py:20-28 | a door closing a corridor is unlocked by every route out of it |
| MultiKeyScenarios.ChainLinksHaveKeys | benchmarks/maze/evaluator.py:264-273 | every chain letter's key is among the keys held |
| MultiKeyScenarios.NoKeysInCorridor | test_multikey.py:42-50 | a keyless corridor yields no keys |
| MultiKeyScenarios.LockedCorridor | test_multikey.py:42-50 | a door at the end of a keyless corridor blocks every route |
| MultiKeyScenarios.CellTotalUniform | benchmarks/maze/evaluator.py:211-223 | a grid of equal rows has rows * width cells |
| MultiKeyScenarios.SimpleChainEnds | test_multikey.py:20-27 | the first maze's S is at (1, 1) and its E at (2, 5) |
| MultiKeyScenarios.SimpleChainKeys | test_multikey.py:20-27 | the first maze's only key is `a` |
| MultiKeyScenarios.SimpleChainSmall | test_multikey.py:20-27 | the first maze's state space is below the pop cap |
| MultiKeyScenarios.SimpleChainSolvable | test_multikey.py:20-28 | the first maze has a key route from S to E |
| MultiKeyScenarios.SimpleChainCorridor | test_multikey.py:20-28 | the first maze's S sits in a corridor closed by door A |
| MultiKeyScenarios.SimpleChainEveryRoute | test_multikey.py:20-28 | every route through the first maze unlocks exactly A |
| MultiKeyScenarios.SimpleChainRoutes | test_multikey.py:20-28 | the first maze is small, solvable, and every route's chain is {A} |
| MultiKeyScenarios.SimpleChainGraded | test_multikey.py:30-37 | the first maze grades as solved with completion 50, chain 1 and complexity 50 |
| MultiKeyScenarios.DoorFirstEnds | test_multikey.py:42-49 | the second maze's S is at (1, 1) and its E at (2, 5) |
| MultiKeyScenarios.DoorFirstCorridor | test_multikey.py:42-50 | the second maze's S sits in a keyless corridor closed by door A |
| MultiKeyScenarios.DoorFirstUnsolvable | test_multikey.py:42-50 | the second maze has no key route from S to E |
| MultiKeyScenarios.DoorFirstGraded | test_multikey.py:51-58 | the second maze grades as unsolved with completion 0 and complexity 0 |
| MultiKeyScenarios.DoubleChainEnds | test_multikey.py:62-69 | the third maze's S is at (1, 1) and its E at (2, 9) |
| MultiKeyScenarios.DoubleChainKeys | test_multikey.py:62-69 | the third maze's keys are `a` and `b` |
| MultiKeyScenarios.DoubleChainSmall | test_multikey.py:62-69 | the third maze's state space is below the pop cap |
| MultiKeyScenarios.DoubleChainSolvable | test_multikey.py:62-69 | the third maze has a key route from S to E |
| MultiKeyScenarios.DoubleChainCorridor | test_multikey.py:62-69 | the third maze's corridors are closed by doors A and B |
| MultiKeyScenarios.DoubleChainEveryRoute | test_multikey.py:62-78 | every route through the third maze unlocks exactly A and B |
| MultiKeyScenarios.DoubleChainRoutes | test_multikey.py:62-78 | the third maze is small, solvable, and every route's chain is {A, B} |
| MultiKeyScenarios.DoubleChainGraded | test_multikey.py:70-78 | the third maze grades as solved with chain 2 and complexity 100 |
| MultiKeyScenarios.GradeSimpleChain | test_multikey.py:30-37 | grading the first maze awards at least 50 complexity and 50 completion |
| MultiKeyScenarios.GradeDoorFirst | test_multikey.py:51-58 | grading the second maze reports it unsolvable |
| MultiKeyScenarios.GradeDoubleChain | test_multikey.py:70-78 | grading the third maze reports 2 key/door pairs |
| Leaderboards.Names | leaderboard.py:65-66 | the model names of the table, in insertion order |
| Leaderboards.Find | leaderboard.py:65 | absent exactly when no entry has the name; otherwise the index of an entry with that name |
| Leaderboards.Appended | leaderboard.py:69-82 | appending turns a missing or legacy slot into a list whose runs are the old runs followed by the new record |
| Leaderboards.AddTo | leaderboard.py:62-82 | the names are unchanged for a known model, or extended by the new name at the end; distinct names stay distinct |
| Leaderboards.LexIrreflexive | leaderboard.py:117 | the string order used by `sorted` is irreflexive |
| Leaderboards.LexTransitive | leaderboard.py:117 | the string order is transitive |
| Leaderboards.LexTotal | leaderboard.py:117 | any two distinct strings are ordered |
| Leaderboards.LexAsymmetric | leaderboard.py:117 | the string order is asymmetric |
| Leaderboards.InsertSorted | leaderboard.py:117 | inserting a new element into a strictly sorted list keeps it sorted and adds exactly that element |
| Leaderboards.SortedOf | leaderboard.py:117 | `sorted(s)` lists the members of s once each, in increasing order |
| Leaderboards.SortedList | leaderboard.py:117 | the loop sorts a set into a strictly increasing list of exactly its members |
| Leaderboards.SortedCard | leaderboard.py:117 | a strictly sorted list has no repeats |
| Leaderboards.SortedHead | leaderboard.py:117 | the head of a strictly sorted list does not occur again in its tail |
| Leaderboards.SortedUnique | leaderboard.py:117 | two strictly sorted lists with the same members are equal, so `sorted` is determined by the set |
| Leaderboards.CollectBenchmarks | leaderboard.py:114-116 | the loop collects the union of every model's benchmark names |
| Leaderboards.Leaderboard.constructor | leaderboard.py:62-63 | a fresh leaderboard has no models |
| Leaderboards.Leaderboard.AddResult | leaderboard.py:62-82 | creates the model and benchmark entries when missing, migrates a legacy record, appends exactly one record, keeps names distinct, and a following lookup returns the record just added |
| Leaderboards.Leaderboard.GetResult | leaderboard.py:101-110 | none exactly when the slot is missing or empty; otherwise the last run, with a legacy record counting as a one-run list |
| Leaderboards.Leaderboard.GetAllBenchmarks | leaderboard.py:112-117 | the sorted, duplicate-free union of every model's benchmark names |
| Leaderboards.Leaderboard.RemoveModel | leaderboard.py:119-137 | returns true exactly when the model was present; the table is the old one without that model |
| Leaderboards.FindUpdate | leaderboard.py:78-82 | updating an entry in place keeps every lookup index |
| Leaderboards.FindAppend | leaderboard.py:65-66 | appending an entry makes it findable and leaves other names' indices unchanged |
| Leaderboards.AddToLookup | leaderboard.py:62-82 | adding changes only the target slot, to the old runs plus the new record; every other model and benchmark is unchanged |
| Leaderboards.AddedIsLatest | leaderboard.py:78-82 | after adding a run, it is the last run stored for its model and benchmark, so `get_result` returns it |
| Leaderboards.RemoveUndoesFirstAdd | leaderboard.py:129-130 | removing a model just added for the first time restores the table |
| Leaderboards.RemovedAt | leaderboard.py:130 | deleting an entry shifts the later entries down by one |
| Leaderboards.RemovedDistinct | leaderboard.py:129-130 | after removal the names stay distinct and the removed name is absent |
| Leaderboards.RemovedAtDistinct | leaderboard.py:129-130 | deleting one entry keeps the remaining names distinct |
| Leaderboards.RemovedAtAbsent | leaderboard.py:129-130 | with distinct names, the deleted entry's name occurs nowhere after deletion |
| Leaderboards.NamesRemoveAt | leaderboard.py:129-130 | deleting an entry deletes exactly its name from the name list, keeping the order of the rest |
| Leaderboards.FindUnique | leaderboard.py:65 | with distinct names, the entry carrying a name is the one found |
| Leaderboards.RemovedNames | leaderboard.py:129-130 | removal drops exactly the removed model's name and keeps the order of the others |
| Leaderboards.RemovedLookup | leaderboard.py:129-130 | removal leaves every other model's results unchanged |
| Leaderboards.AddToBenchmarks | leaderboard.py:62-82 | after adding, the benchmark names are the old ones plus the new benchmark |
| Leaderboards.BenchmarkKeysReplace | leaderboard.py:114-116 | the union over a table with one entry replaced |
| Leaderboards.BenchmarkKeysConcat | leaderboard.py:114-116 | the union over concatenated tables is the union of the unions |
| Leaderboards.BenchmarkKeysSplit | leaderboard.py:114-116 | the union splits around any entry |
| LeaderboardExports.ModelRuns | leaderboard_exports.py:166-179 | every collected run of a model carries that model's name |
| LeaderboardExports.InsertDesc | leaderboard_exports.py:182 | insertion adds exactly the new run |
| LeaderboardExports.SortDesc | leaderboard_exports.py:182 | sorting is a permutation of the runs |
| LeaderboardExports.InsertDescSorted | leaderboard_exports.py:182 | insertion keeps the scores non-increasing |
| LeaderboardExports.SortDescSorted | leaderboard_exports.py:182 | the sorted runs have non-increasing scores |
| LeaderboardExports.WithScoreConcat | leaderboard_exports.py:182 | the runs of one score in a concatenation are those of each part |
| LeaderboardExports.InsertDescStable | leaderboard_exports.py:182 | insertion places the new run after the runs of equal score |
| LeaderboardExports.SortDescStable | leaderboard_exports.py:182 | the sort is stable: runs of equal score keep their collection order |
| LeaderboardExports.GetRankings | leaderboard_exports.py:152-188 | the loops collect every run, sort by score descending and number ranks 1..n in list order, one entry per stored run |
| LeaderboardExports.AppendRuns | leaderboard_exports.py:173-179 | the inner loop appends exactly the model's runs for the benchmark, in stored order |
| LeaderboardExports.RankAll | leaderboard_exports.py:185-186 | ranks 1, 2, ... are handed out in list order |
| LeaderboardExports.RankingsStablePermutation | leaderboard_exports.py:164-188 | the rankings are a permutation of the collected runs, scores non-increasing, ranks 1..n, and equal scores keep model insertion order |
| LeaderboardExports.RanksOfSorted | leaderboard_exports.py:182-186 | numbering a stable descending sort gives ranks in order over a permutation |
| LeaderboardExports.RanksOf | leaderboard_exports.py:185-186 | numbering a descending list keeps its runs and gives ranks in order |
| LeaderboardExports.CollectedConcat | leaderboard_exports.py:166-179 | collection over concatenated tables concatenates |
| LeaderboardExports.CollectedSplit | leaderboard_exports.py:166-179 | collection splits around any model |
| LeaderboardExports.ModelRunsAppended | leaderboard_exports.py:171 | appending to a model's slot appends one run to its collected runs, a legacy record counting as one run |
| LeaderboardExports.CollectedReplace | leaderboard_exports.py:166-179 | collection over a table with one model replaced |
| LeaderboardExports.CollectedAfterAdd | leaderboard_exports.py:166-179 | after adding a result, the benchmark's runs gain exactly that one run |
| LeaderboardExports.AddToExisting | leaderboard_exports.py:166-179 | adding to an existing model grows the benchmark's runs by exactly the new run, as a multiset |
| LeaderboardExports.CollectedAfterAddOther | leaderboard_exports.py:166-179 | adding a result leaves every other benchmark's runs unchanged |
| LeaderboardExports.WithoutModelConcat | leaderboard_exports.py:166-179 | dropping a model's runs distributes over concatenation |
| LeaderboardExports.WithoutModelNone | leaderboard_exports.py:166-179 | dropping an absent model changes nothing |
| LeaderboardExports.WithoutModelAll | leaderboard_exports.py:166-179 | dropping the only model leaves nothing |
| LeaderboardExports.CollectedModels | leaderboard_exports.py:166-179 | a model not in the table contributes no runs |
| LeaderboardExports.CollectedAfterRemove | leaderboard_exports.py:166-179 | after removing a model, the runs are the old runs without that model's |
| LeaderboardExports.CollectedWithoutAt | leaderboard_exports.py:166-179 | deleting one entry drops exactly that model's runs |
| LeaderboardExports.OthersCollected | leaderboard_exports.py:166-179 | with distinct names, other entries contribute no runs of the deleted model |
| LeaderboardExports.WithoutMiddle | leaderboard_exports.py:166-179 | dropping a model whose runs form the middle block keeps the rest in order |
| LeaderboardExports.KeepMembers | leaderboard_exports.py:43-44 | a filtered entry is an entry passing the score test |
| LeaderboardExports.KeepConcat | leaderboard_exports.py:43-44 | filtering distributes over concatenation |
| LeaderboardExports.KeepAll | leaderboard_exports.py:43-44 | filtering entries that all pass keeps them all |
| LeaderboardExports.KeepNone | leaderboard_exports.py:43-44 | filtering entries that all fail keeps none |
| LeaderboardExports.Partition | leaderboard_exports.py:43-44 | successful means score > -100 and failed means score == -100, both ways; a score below -100 is in neither section |
| LeaderboardExports.CutPoint | leaderboard_exports.py:43-44 | in a descending ranking the entries above (or at least) a threshold form a prefix |
| LeaderboardExports.KeepBlock | leaderboard_exports.py:43-44 | filtering entries that pass exactly on a block of positions gives that block |
| LeaderboardExports.PartitionLayout | leaderboard_exports.py:43-44 | in a descending ranking the successful entries are a prefix, the failed ones the block after it, and the rest score below -100 |
| LeaderboardExports.TableRanks | leaderboard_exports.py:43-62 | successful entries carry ranks 1..k in order, and failed entries ranks k+1.. |
| LeaderboardExports.NatToStringRoundTrip | leaderboard_exports.py:139 | the decimal rendering of a rank is non-empty, all digits, and reads back as the rank |
| LeaderboardExports.NatToStringLength | leaderboard_exports.py:139 | a number below 10^k takes at most k digits |
| LeaderboardExports.RankDisplayMedals | leaderboard_exports.py:56-62 | the rank column shows a medal exactly for ranks 1-3, and different ranks display differently |
| LeaderboardExports.CliPrefixWidth | leaderboard_exports.py:130-145 | the prefix of a rank below 100000 fits the six-character column |
| LeaderboardExports.CliPrefixDistinct | leaderboard_exports.py:131-139 | different ranks get different prefixes |
| LeaderboardExports.CliModelName | leaderboard_exports.py:141-143 | a name of at most 28 characters is kept; a longer one becomes its first 25 characters plus "...", 28 in all |
| LeaderboardExports.CliModelNameIdempotent | leaderboard_exports.py:141-143 | truncating twice equals truncating once |
| LeaderboardExports.PadRight | leaderboard_exports.py:145 | left alignment keeps the text and fills with spaces up to the width |
| LeaderboardExports.PadLeft | leaderboard_exports.py:145 | right alignment ends with the text and is preceded by spaces up to the width |
| LeaderboardExports.CliRowColumns | leaderboard_exports.py:145 | a CLI row has the prefix at column 0, the model at column 7 and the score from column 38 |
| LeaderboardExports.MarkdownSection | leaderboard_exports.py:43-88 | the loop builds a benchmark's heading, successful table and failed table |
| LeaderboardExports.SuccessTable | leaderboard_exports.py:49-72 | the successful table is its three header lines, one row per entry and a blank line |
| LeaderboardExports.FailedTable | leaderboard_exports.py:75-88 | the failed table is its three header lines, one row per entry numbered from 1, and a blank line |
| LeaderboardExports.ShownBenchmarks | leaderboard_exports.py:26-30 | the shown benchmarks are the given one, else the sorted union of all benchmark names |
| LeaderboardExports.MarkdownBody | leaderboard_exports.py:36-88 | one section per shown benchmark with runs; benchmarks without runs are skipped |
| LeaderboardExports.ExportMarkdown | leaderboard_exports.py:12-90 | no benchmarks gives the header and "No benchmark results yet"; otherwise the header followed by the sections, joined by newlines |
| LeaderboardExports.MedalsOnFirstThreeRows | leaderboard_exports.py:54-62 | in the successful table exactly the first three rows show medals |
| LeaderboardExports.MarkdownUnknownBenchmark | leaderboard_exports.py:30-40 | exporting a named benchmark without runs yields only the header |
| LeaderboardExports.CliColumnsLayout | leaderboard_exports.py:127 | the column header is 48 characters, with "Rank" at 0, "Model" at 7 and "Score" ending the line |
| LeaderboardExports.CliTableSection | leaderboard_exports.py:119-145 | one CLI section: the upper-cased name, rule, column header, rule and one row per entry |
| LeaderboardExports.CliTableRows | leaderboard_exports.py:130-145 | one CLI row per ranked entry, in order |
| LeaderboardExports.CliBody | leaderboard_exports.py:119-145 | one CLI section per shown benchmark with runs |
| LeaderboardExports.FormatCliTable | leaderboard_exports.py:93-149 | no benchmarks gives the "[LEADERBOARD] No benchmark results yet." line; otherwise the banner, the sections and the closing rule, joined by newlines |

## Left out

- The wall clock (`time.time()` in the search loop) is the oracle parameter `timeUp`, asked before each pop. The timeout value in seconds is not modelled.
- Floating point: `math.log2`, `math.sqrt` and the path-efficiency division are exact reals or parameters (`log2`, `sqrt`). `round(..., 2)`, `complexity_ratio` and the `:.2f`/`:.1f`/`:>10.2f` formatting are not modelled or are function parameters. Scores are exact reals, and NaN scores are not modelled.
- The fenced-block regular expression is an explicit scan: the leftmost "```", an optional "markdown", a newline, then the shortest body up to `"\n```"`. The scan is not claimed to be equivalent to Python's `re` engine. The leading `\s*` of the strategic pattern does not change the captured body.
- `str.isspace` covers the ASCII white space and the common Unicode spaces. `str.upper()` in the fallback filter is restricted to ASCII letters. `str.title()` and `str.upper()` of benchmark names are function parameters.
- The human-readable texts of the grades (descriptions, error messages with counts, the `unique_strategies` strings, the `maze_info` block) are left out. The error kind, the counts they report and every numeric component are modelled.
- Exceptions other than parse errors: `Failed(Unexpected)` stands for the division by a zero grid size. Only `GradeGrid`, `SolveAndScore`, `ScoreSolution` and `Total` return it, on a grid with no cells; `GradeStrategicMaze` never does, because a parsed grid is never empty. A traceback print is not modelled.
- Leaderboard persistence is left out: `_load`/`_save`, the JSON file, `save_to_markdown_file` and the `__main__` command line. The timestamp of a new record is the parameter `now`.
- The leaderboard's top-level `"models"` key is always present: a missing key behaves as an empty table. Record details keep only numeric values, the only ones the exports read. A legacy single-record entry is assumed non-empty, as every record written by `add_result` is.
- Pathfinding.StrategicPathfinder.Solve: the contract does not characterise the `strategic_usage` counters (teleports, switch presses, blocks moved) beyond their use in scoring. It also does not prove that the returned path is a shortest one.
- Pathfinding.SolvableIffReachable: holds only when fewer than rows*cols*20 distinct states are reachable. Otherwise the pop cap can stop the search early and report no route, and `Solve` states only that unsolved means unreachable or that many reachable states.
- The cell a push jumps over may lie outside the grid, where `get_cell` gives a space; push and teleport landings skip the door checks. Both are modelled as written, so a run of moves can land on a door whose key is not held.
- LegacySearch.SolveMazeGraph: the path is not proved shortest. The visited dictionary of path lengths is a set, because its values are never read.
- LegacySearch.GetStatefulPath: the path is not proved shortest. It requires an in-grid start (or a start equal to the end). The source has no caller for it; with a negative start it would wrap around the grid, and with a start past the grid it raises `IndexError`. Neither case is modelled.
- MazeModel.StrategicMaze.IsWall: requires a row index Python can use. For a row beyond the grid, `is_wall` raises `IndexError`, and `GetCell` returns a space where `get_cell` raises it for a row below `-rows` or a column below `-len(row)`. No modelled search reaches those positions.
- LegacyEvaluator.LegacySolve: requires an in-grid start. `grade_maze` only calls the solver with the position of an `S` found in the grid.
- LegacyEvaluator.LegacySolvableIffRoute: holds only when the state space is below the 100000-pop cap. Above it the search can stop early and report no route.
- MultiKeyScenarios: the three mazes are stated on the rows the legacy parser keeps from the test script's indented text. That extraction (fallback filter, because the indented closing fence does not match) is not proved for the literal strings.
- The other files of the repository are not part of this model: the network client, batch processing, manual ingestion, benchmark utilities, runner, and the stale test and debug scripts.
