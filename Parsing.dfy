/** Turning free-form model output into a rectangular maze grid, plus the
    position and counting helpers the evaluators run on that grid. */
module MazeParsing {
  import opened MazeCommon
  import opened MazeConstants

  /** The reasons `MazeParsingError` is raised, one constructor per message. */
  datatype ParseError =
    | EmptyInput
    | NoMazeLikeContent
    | NoMazeContentExtracted
    | NoRowsAfterSplit
    | TooTall(rows: nat)
    | TooWide(width: nat)
    | TooLarge(rows: nat, width: nat)
    | NoRowsAfterCleaning
    | InvalidCharacters(cells: set<(char, Pos)>)

  // ---------------------------------------------------------------------
  // Fenced block: the leftmost "```" (optionally "```markdown") opening line
  // whose body is closed by a later "\n```". The body is the shortest one.

  /** The first `j >= b` at which `"\n```"` starts. */
  function CloseFrom(s: string, b: nat): (j: Option<nat>)
    requires b <= |s|
    ensures j.Some? ==> b <= j.value && j.value + 4 <= |s|
    decreases |s| - b
  {
    if StartsWith(s[b..], "\n```") then Some(b)
    else if b == |s| then None
    else CloseFrom(s, b + 1)
  }

  /** The match the fence pattern finds when its backticks start at `q`:
      the `markdown` header is tried before the bare one. */
  function FenceAt(s: string, q: nat): (m: Option<(nat, nat)>)
    requires q <= |s|
    ensures m.Some? ==> q + 4 <= m.value.0 <= m.value.1 && m.value.1 + 4 <= |s|
  {
    if StartsWith(s[q..], "```markdown\n") && CloseFrom(s, q + 12).Some? then
      Some((q + 12, CloseFrom(s, q + 12).value))
    else if StartsWith(s[q..], "```\n") && CloseFrom(s, q + 4).Some? then
      Some((q + 4, CloseFrom(s, q + 4).value))
    else None
  }

  /** The leftmost fence match at or after `q`, as (body start, body end). */
  function FirstFenceFrom(s: string, q: nat): (m: Option<(nat, nat)>)
    requires q <= |s|
    ensures m.Some? ==> q + 4 <= m.value.0 <= m.value.1 && m.value.1 + 4 <= |s|
    decreases |s| - q
  {
    if FenceAt(s, q).Some? then FenceAt(s, q)
    else if q == |s| then None
    else FirstFenceFrom(s, q + 1)
  }

  /** The closing search finds the first `"\n```"` at or after `b`, or reports there is none. */
  lemma {:induction false} CloseFromSpec(s: string, b: nat)
    requires b <= |s|
    ensures var j := CloseFrom(s, b);
      (j.Some? ==> s[j.value..j.value + 4] == "\n```")
      && forall k :: b <= k < (if j.Some? then j.value else |s| + 1) ==> !StartsWith(s[k..], "\n```")
    decreases |s| - b
  {
    if !StartsWith(s[b..], "\n```") && b < |s| {
      CloseFromSpec(s, b + 1);
    }
  }

  /** The body found at `q` sits right after an opening line and right before a closing
      `"\n```"`, and no shorter body is closed. */
  lemma FenceAtSpec(s: string, q: nat)
    requires q <= |s| && FenceAt(s, q).Some?
    ensures var (b, e) := FenceAt(s, q).value;
      ((StartsWith(s[q..], "```markdown\n") && b == q + 12) || (StartsWith(s[q..], "```\n") && b == q + 4))
      && s[e..e + 4] == "\n```"
      && forall k :: b <= k < e ==> !StartsWith(s[k..], "\n```")
  {
    if StartsWith(s[q..], "```markdown\n") && CloseFrom(s, q + 12).Some? {
      CloseFromSpec(s, q + 12);
    } else {
      CloseFromSpec(s, q + 4);
    }
  }

  /** The scan returns the match at the smallest starting position. */
  lemma {:induction false} FirstFenceLeftmost(s: string, q: nat)
    requires q <= |s|
    ensures var m := FirstFenceFrom(s, q);
      (m.Some? ==> exists p :: q <= p <= |s| && FenceAt(s, p) == m
                     && forall p' :: q <= p' < p ==> FenceAt(s, p').None?)
      && (m.None? ==> forall p :: q <= p <= |s| ==> FenceAt(s, p).None?)
    decreases |s| - q
  {
    if FenceAt(s, q).None? && q < |s| {
      FirstFenceLeftmost(s, q + 1);
      var m := FirstFenceFrom(s, q + 1);
      assert FirstFenceFrom(s, q) == m;
      if m.Some? {
        var p :| q + 1 <= p <= |s| && FenceAt(s, p) == m
                 && forall p' :: q + 1 <= p' < p ==> FenceAt(s, p').None?;
        forall p' | q <= p' < p ensures FenceAt(s, p').None? {
          if p' == q {
          }
        }
      } else {
        forall p | q <= p <= |s| ensures FenceAt(s, p).None? {
          if p == q {
          }
        }
      }
    }
  }

  /** The interior of the first fenced block, if any. */
  function FencedInterior(text: string): Option<string>
  {
    match FirstFenceFrom(text, 0)
    case Some((b, e)) => Some(text[b..e])
    case None => None
  }

  // ---------------------------------------------------------------------
  // Fallback line filter.

  /** The characters whose presence makes a line look like maze content. */
  predicate IsMazeLikeChar(ch: char)
  {
    ch in NamedMazeChars || ch == ' ' || IsLower(ch) || IsUpper(ch)
  }

  function AsciiUpper(ch: char): char
  {
    if IsLower(ch) then (ch as int - 32) as char else ch
  }

  /** `line.upper().startswith('TIME:')`, with the upper-casing restricted to ASCII. */
  predicate StartsWithTimeTag(line: string)
  {
    |line| >= 5 && forall i :: 0 <= i < 5 ==> AsciiUpper(line[i]) == "TIME:"[i]
  }

  /** Whether the fallback keeps an (already stripped) line. */
  predicate KeepFallbackLine(line: string)
  {
    line != [] && (exists i :: 0 <= i < |line| && IsMazeLikeChar(line[i]))
    && |line| >= 3 && !StartsWith(line, "##")
    && !StartsWithTimeTag(line)
  }

  /** The stripped lines the fallback keeps, in input order. */
  function FallbackLines(lines: seq<string>): seq<string>
  {
    if lines == [] then []
    else
      var line := Strip(lines[|lines| - 1]);
      FallbackLines(lines[..|lines| - 1]) + (if KeepFallbackLine(line) then [line] else [])
  }

  lemma FallbackLinesSnoc(lines: seq<string>, line: string)
    ensures FallbackLines(lines + [line]) == FallbackLines(lines)
              + (if KeepFallbackLine(Strip(line)) then [Strip(line)] else [])
  {
    assert (lines + [line])[..|lines|] == lines;
  }

  lemma FallbackLinesStep(lines: seq<string>, k: nat)
    requires k < |lines|
    ensures FallbackLines(lines[..k + 1]) == FallbackLines(lines[..k])
              + (if KeepFallbackLine(Strip(lines[k])) then [Strip(lines[k])] else [])
  {
    assert lines[..k + 1][..k] == lines[..k];
  }

  // ---------------------------------------------------------------------
  // Row cleaning and padding.

  /** `[row.strip() for row in rows if row.strip()]`. */
  function CleanRows(rows: seq<string>): seq<string>
  {
    if rows == [] then []
    else
      var row := Strip(rows[|rows| - 1]);
      CleanRows(rows[..|rows| - 1]) + (if row != [] then [row] else [])
  }

  function MaxLen(rows: seq<string>): (w: nat)
    ensures forall k :: 0 <= k < |rows| ==> |rows[k]| <= w
    ensures rows != [] ==> exists k :: 0 <= k < |rows| && |rows[k]| == w
    ensures rows == [] ==> w == 0
  {
    if rows == [] then 0 else Max(MaxLen(rows[..|rows| - 1]), |rows[|rows| - 1]|)
  }

  function Spaces(n: nat): (s: string)
    ensures |s| == n && forall i :: 0 <= i < n ==> s[i] == ' '
  {
    if n == 0 then [] else Spaces(n - 1) + " "
  }

  function PadRow(row: string, w: nat): string
  {
    if |row| < w then row + Spaces(w - |row|) else row
  }

  function PadRows(rows: seq<string>, w: nat): (padded: seq<string>)
    ensures |padded| == |rows|
    ensures forall k :: 0 <= k < |rows| ==> padded[k] == PadRow(rows[k], w)
  {
    seq(|rows|, k requires 0 <= k < |rows| => PadRow(rows[k], w))
  }

  /** Padding to at least every row's length makes each row exactly `w` long and keeps its text. */
  lemma PadRowsShape(rows: seq<string>, w: nat)
    requires forall k :: 0 <= k < |rows| ==> |rows[k]| <= w
    ensures forall k :: 0 <= k < |rows| ==>
      |PadRows(rows, w)[k]| == w && PadRows(rows, w)[k][..|rows[k]|] == rows[k]
      && forall i :: |rows[k]| <= i < w ==> PadRows(rows, w)[k][i] == ' '
  {
    forall k | 0 <= k < |rows|
      ensures |PadRows(rows, w)[k]| == w && PadRows(rows, w)[k][..|rows[k]|] == rows[k]
    {
      assert PadRows(rows, w)[k] == PadRow(rows[k], w);
    }
  }

  /** The grid `normalize_maze_grid` returns, or its error. */
  function Normalize(grid: seq<string>): Result<Grid, ParseError>
  {
    var cleaned := CleanRows(grid);
    if cleaned == [] then Err(NoRowsAfterCleaning)
    else Ok(PadRows(cleaned, MaxLen(cleaned)))
  }

  /** Every grid cell holding a character outside the alphabet. */
  function InvalidCells(grid: Grid): (bad: set<(char, Pos)>)
    ensures forall ch, p :: (ch, p) in bad <==> InGrid(grid, p) && grid[p.r][p.c] == ch && !IsGridChar(ch)
  {
    set r, c | 0 <= r < |grid| && 0 <= c < |grid[r]| && !IsGridChar(grid[r][c]) :: (grid[r][c], Pos(r, c))
  }

  // ---------------------------------------------------------------------
  // The whole parser.

  /** The text the parser splits into rows: the stripped fenced body, or the
      fallback lines joined by newlines. */
  function MazeText(text: string): Result<string, ParseError>
  {
    match FencedInterior(text)
    case Some(body) => Ok(Strip(body))
    case None =>
      var kept := FallbackLines(SplitLines(Strip(text)));
      if kept == [] then Err(NoMazeLikeContent) else Ok(JoinLines(kept))
  }

  /** The checks `parse_maze_from_text` makes on the raw rows: size first, then
      normalisation, then the alphabet. */
  function CheckRows(raw: seq<string>, lim: Limits): Result<Grid, ParseError>
  {
    if raw == [] then Err(NoRowsAfterSplit)
    else if |raw| > lim.maxRows then Err(TooTall(|raw|))
    else if MaxLen(raw) > lim.maxCols then Err(TooWide(MaxLen(raw)))
    else if |raw| * MaxLen(raw) > lim.maxCells then Err(TooLarge(|raw|, MaxLen(raw)))
    else match Normalize(raw)
      case Err(e) => Err(e)
      case Ok(g) => if InvalidCells(g) != {} then Err(InvalidCharacters(InvalidCells(g))) else Ok(g)
  }

  /** The non-blank stripped lines of the extracted text. */
  function RawRows(mazeText: string): seq<string>
  {
    CleanRows(SplitLines(mazeText))
  }

  /** The result of `parse_maze_from_text` under the given limits. */
  function Parse(text: string, lim: Limits): Result<Grid, ParseError>
  {
    if Strip(text) == [] then Err(EmptyInput)
    else match MazeText(text)
      case Err(e) => Err(e)
      case Ok(mt) => if mt == [] then Err(NoMazeContentExtracted) else CheckRows(RawRows(mt), lim)
  }

  // ---------------------------------------------------------------------
  // The parser's loops.

  /** `validate_maze_characters`: collects every offending cell. */
  method ValidateMazeCharacters(grid: Grid) returns (invalid: set<(char, Pos)>)
    ensures invalid == InvalidCells(grid)
  {
    invalid := {};
    for r := 0 to |grid|
      invariant forall ch, p :: (ch, p) in invalid <==>
        0 <= p.r < r && 0 <= p.c < |grid[p.r]| && grid[p.r][p.c] == ch && !IsGridChar(ch)
    {
      for c := 0 to |grid[r]|
        invariant forall ch, p :: (ch, p) in invalid <==>
          ((0 <= p.r < r && 0 <= p.c < |grid[p.r]|) || (p.r == r && 0 <= p.c < c))
          && grid[p.r][p.c] == ch && !IsGridChar(ch)
      {
        if !IsGridChar(grid[r][c]) {
          invalid := invalid + {(grid[r][c], Pos(r, c))};
        }
      }
    }
    forall x | x in InvalidCells(grid) ensures x in invalid {
      assert (x.0, x.1) in InvalidCells(grid);
    }
    forall x | x in invalid ensures x in InvalidCells(grid) {
      assert (x.0, x.1) in invalid;
    }
  }

  /** `normalize_maze_grid`: strips and drops blank rows, then right-pads. */
  method NormalizeMazeGrid(grid: seq<string>) returns (r: Result<Grid, ParseError>)
    ensures r == Normalize(grid)
  {
    var cleaned := CleanRows(grid);
    if cleaned == [] {
      return Err(NoRowsAfterCleaning);
    }
    var maxWidth := MaxLen(cleaned);
    var normalized: seq<string> := [];
    ghost var padded := PadRows(cleaned, maxWidth);
    for k := 0 to |cleaned|
      invariant |normalized| == k
      invariant forall i :: 0 <= i < k ==> normalized[i] == PadRow(cleaned[i], maxWidth)
    {
      var row := cleaned[k];
      normalized := normalized + [PadRow(row, maxWidth)];
    }
    assert normalized == padded;
    return Ok(normalized);
  }

  /** The extraction half of `parse_maze_from_text`: the fenced body, or the
      fallback loop over the stripped input's lines. */
  method ExtractMazeText(text: string) returns (r: Result<string, ParseError>)
    ensures r == MazeText(text)
  {
    var fenced := FencedInterior(text);
    if fenced.Some? {
      return Ok(Strip(fenced.value));
    }
    var lines := SplitLines(Strip(text));
    var mazeLines: seq<string> := [];
    for k := 0 to |lines|
      invariant mazeLines == FallbackLines(lines[..k])
    {
      FallbackLinesStep(lines, k);
      var line := Strip(lines[k]);
      if KeepFallbackLine(line) {
        mazeLines := mazeLines + [line];
      }
    }
    assert lines[..|lines|] == lines;
    if mazeLines == [] {
      return Err(NoMazeLikeContent);
    }
    return Ok(JoinLines(mazeLines));
  }

  /** `parse_maze_from_text`. */
  method ParseMazeFromText(text: string, lim: Limits) returns (r: Result<Grid, ParseError>)
    ensures r == Parse(text, lim)
  {
    if Strip(text) == [] {
      return Err(EmptyInput);
    }
    var extracted := ExtractMazeText(text);
    if extracted.Err? {
      return Err(extracted.error);
    }
    var mazeText := extracted.value;
    if mazeText == [] {
      return Err(NoMazeContentExtracted);
    }
    var rawRows := RawRows(mazeText);
    if rawRows == [] {
      return Err(NoRowsAfterSplit);
    }
    if |rawRows| > lim.maxRows {
      return Err(TooTall(|rawRows|));
    }
    var maxWidth := MaxLen(rawRows);
    if maxWidth > lim.maxCols {
      return Err(TooWide(maxWidth));
    }
    if |rawRows| * maxWidth > lim.maxCells {
      return Err(TooLarge(|rawRows|, maxWidth));
    }
    var normalized := NormalizeMazeGrid(rawRows);
    if normalized.Err? {
      return normalized;
    }
    var invalid := ValidateMazeCharacters(normalized.value);
    if invalid != {} {
      return Err(InvalidCharacters(invalid));
    }
    return normalized;
  }

  // ---------------------------------------------------------------------
  // What the parser guarantees.

  /** The fallback filter distributes over concatenation: kept lines stay in input order. */
  lemma {:induction false} FallbackLinesAppend(a: seq<string>, b: seq<string>)
    ensures FallbackLines(a + b) == FallbackLines(a) + FallbackLines(b)
    decreases |b|
  {
    if b == [] {
      assert a + b == a;
    } else {
      var init, last := b[..|b| - 1], b[|b| - 1];
      FallbackLinesAppend(a, init);
      var ab := a + b;
      assert ab[..|ab| - 1] == a + init && ab[|ab| - 1] == last;
      FallbackLinesLast(ab);
      FallbackLinesLast(b);
      Regroup(FallbackLines(a), FallbackLines(init), if KeepFallbackLine(Strip(last)) then [Strip(last)] else []);
    }
  }

  lemma FallbackLinesLast(lines: seq<string>)
    requires lines != []
    ensures FallbackLines(lines) == FallbackLines(lines[..|lines| - 1])
              + (if KeepFallbackLine(Strip(lines[|lines| - 1])) then [Strip(lines[|lines| - 1])] else [])
  {
  }

  lemma Regroup(x: seq<string>, y: seq<string>, z: seq<string>)
    ensures (x + y) + z == x + (y + z)
  {
  }

  /** On one line, the fallback keeps its stripped form exactly when the filter accepts it. */
  lemma FallbackLinesSingle(line: string)
    ensures FallbackLines([line]) == (if KeepFallbackLine(Strip(line)) then [Strip(line)] else [])
  {
    assert [line][..0] == [];
  }

  /** Lines opening with a Markdown heading marker are dropped. */
  lemma HeadingLinesDropped(line: string)
    requires StartsWith(Strip(line), "##")
    ensures FallbackLines([line]) == []
  {
    FallbackLinesSingle(line);
  }

  /** Lines opening with "time:" in any ASCII case are dropped. */
  lemma TimeLinesDropped(line: string)
    requires StartsWithTimeTag(Strip(line))
    ensures FallbackLines([line]) == []
  {
    FallbackLinesSingle(line);
  }

  /** Every kept line passes the filter and is the stripped form of some input line. */
  lemma {:induction false} FallbackLinesKept(lines: seq<string>)
    ensures forall x :: x in FallbackLines(lines) ==>
      KeepFallbackLine(x) && exists k :: 0 <= k < |lines| && x == Strip(lines[k])
  {
    if lines != [] {
      var init := lines[..|lines| - 1];
      FallbackLinesKept(init);
      forall x | x in FallbackLines(lines)
        ensures KeepFallbackLine(x) && exists k :: 0 <= k < |lines| && x == Strip(lines[k])
      {
        if x in FallbackLines(init) {
          var k :| 0 <= k < |init| && x == Strip(init[k]);
          assert init[k] == lines[k];
        } else {
          assert x == Strip(lines[|lines| - 1]);
        }
      }
    }
  }

  lemma StripKeepsNoNewline(s: string)
    requires '\n' !in s
    ensures '\n' !in Strip(s)
  {
    StripSpec(s);
  }

  lemma StripIdempotent(s: string)
    ensures Strip(Strip(s)) == Strip(s)
  {
    StripSpec(s);
    StripOfStripped(Strip(s));
  }

  /** Every cleaned row is non-blank, already stripped, and starts with a non-blank character. */
  lemma {:induction false} CleanRowsStripped(rows: seq<string>)
    ensures forall k :: 0 <= k < |CleanRows(rows)| ==>
      var x := CleanRows(rows)[k]; x != [] && Strip(x) == x && !IsSpace(x[0])
  {
    if rows != [] {
      CleanRowsStripped(rows[..|rows| - 1]);
      StripIdempotent(rows[|rows| - 1]);
      StripSpec(rows[|rows| - 1]);
    }
  }

  /** Rows that are non-blank and stripped pass through cleaning unchanged. */
  lemma {:induction false} CleanRowsFixed(rows: seq<string>)
    requires forall k :: 0 <= k < |rows| ==> rows[k] != [] && Strip(rows[k]) == rows[k]
    ensures CleanRows(rows) == rows
  {
    if rows != [] {
      var init, last := rows[..|rows| - 1], rows[|rows| - 1];
      forall k | 0 <= k < |init| ensures init[k] != [] && Strip(init[k]) == init[k] {
        assert init[k] == rows[k];
      }
      CleanRowsFixed(init);
      assert rows == init + [last];
    }
  }

  /** Cleaning twice is cleaning once, so `normalize_maze_grid` sees exactly the raw rows. */
  lemma CleanRowsIdempotent(rows: seq<string>)
    ensures CleanRows(CleanRows(rows)) == CleanRows(rows)
  {
    CleanRowsStripped(rows);
    CleanRowsFixed(CleanRows(rows));
  }

  /** Cleaning removes everything exactly when every row is blank. */
  lemma {:induction false} CleanRowsEmptyIff(rows: seq<string>)
    ensures CleanRows(rows) == [] <==> forall k :: 0 <= k < |rows| ==> AllSpace(rows[k])
  {
    if rows != [] {
      var init := rows[..|rows| - 1];
      CleanRowsEmptyIff(init);
      StripEmptyIffAllSpace(rows[|rows| - 1]);
      if CleanRows(rows) == [] {
        forall k | 0 <= k < |rows| ensures AllSpace(rows[k]) {
          if k < |rows| - 1 { assert rows[k] == init[k]; }
        }
      }
    }
  }

  lemma SplitLinesFirst(s: string)
    requires s != [] && s[0] != '\n'
    ensures SplitLines(s)[0] != [] && SplitLines(s)[0][0] == s[0]
  {
  }

  /** Text that starts with a non-blank character yields at least one row. */
  lemma RowsFromNonBlankText(mt: string)
    requires mt != [] && !IsSpace(mt[0])
    ensures CleanRows(SplitLines(mt)) != []
  {
    var lines := SplitLines(mt);
    SplitLinesFirst(mt);
    assert !AllSpace(lines[0]);
    CleanRowsEmptyIff(lines);
  }

  /** Kept fallback lines are non-blank, already stripped, and newline-free when the input lines are. */
  lemma {:induction false} FallbackLinesClean(lines: seq<string>)
    requires forall k :: 0 <= k < |lines| ==> '\n' !in lines[k]
    ensures forall k :: 0 <= k < |FallbackLines(lines)| ==>
      var x := FallbackLines(lines)[k]; x != [] && Strip(x) == x && '\n' !in x
  {
    if lines != [] {
      var init := lines[..|lines| - 1];
      var last := lines[|lines| - 1];
      FallbackLinesClean(init);
      StripKeepsNoNewline(last);
      StripIdempotent(last);
    }
  }

  /** The fallback's lines come back unchanged after being joined and split again. */
  lemma FallbackRowsSurvive(lines: seq<string>)
    requires forall k :: 0 <= k < |lines| ==> '\n' !in lines[k]
    requires FallbackLines(lines) != []
    ensures RawRows(JoinLines(FallbackLines(lines))) == FallbackLines(lines)
  {
    var kept := FallbackLines(lines);
    FallbackLinesClean(lines);
    SplitJoin(kept);
    CleanRowsFixed(kept);
  }

  /** Whatever non-empty text the extraction yields gives at least one raw row, and the
      raw rows are already clean. */
  lemma MazeTextRows(text: string)
    requires MazeText(text).Ok? && MazeText(text).value != []
    ensures RawRows(MazeText(text).value) != []
    ensures CleanRows(RawRows(MazeText(text).value)) == RawRows(MazeText(text).value)
  {
    var mt := MazeText(text).value;
    if FencedInterior(text).Some? {
      StripSpec(FencedInterior(text).value);
      RowsFromNonBlankText(mt);
    } else {
      SplitLinesNoNewline(Strip(text));
      FallbackRowsSurvive(SplitLines(Strip(text)));
    }
    CleanRowsIdempotent(SplitLines(mt));
  }

  /** `normalize_maze_grid` fails only on an all-blank grid; otherwise it keeps the
      stripped non-blank rows in order, each right-padded with spaces to the longest. */
  lemma NormalizeShape(grid: seq<string>)
    ensures Normalize(grid).Err? <==> forall k :: 0 <= k < |grid| ==> AllSpace(grid[k])
    ensures Normalize(grid).Err? ==> Normalize(grid).error == NoRowsAfterCleaning
    ensures Normalize(grid).Ok? ==>
      var g, cleaned := Normalize(grid).value, CleanRows(grid);
      |g| == |cleaned|
      && forall k :: 0 <= k < |g| ==>
           |g[k]| == MaxLen(cleaned) && g[k][..|cleaned[k]|] == cleaned[k]
           && forall i :: |cleaned[k]| <= i < |g[k]| ==> g[k][i] == ' '
  {
    CleanRowsEmptyIff(grid);
    var cleaned := CleanRows(grid);
    if cleaned != [] {
      PadRowsShape(cleaned, MaxLen(cleaned));
    }
  }

  /** A character outside the alphabet is reported exactly when one occurs. */
  lemma InvalidCellsEmptyIff(grid: Grid)
    ensures InvalidCells(grid) == {} <==>
      forall r, c :: 0 <= r < |grid| && 0 <= c < |grid[r]| ==> IsGridChar(grid[r][c])
  {
    if InvalidCells(grid) == {} {
      forall r, c | 0 <= r < |grid| && 0 <= c < |grid[r]| ensures IsGridChar(grid[r][c]) {
        assert (grid[r][c], Pos(r, c)) !in InvalidCells(grid);
      }
    } else {
      var x :| x in InvalidCells(grid);
    }
  }

  /** With consistent limits the cell-count check never fires: both earlier checks passed. */
  lemma CheckRowsNeverTooLarge(raw: seq<string>, lim: Limits)
    requires lim.Consistent()
    ensures CheckRows(raw, lim).Err? ==> !CheckRows(raw, lim).error.TooLarge?
  {
    if |raw| <= lim.maxRows && MaxLen(raw) <= lim.maxCols {
      MulMonotone(|raw|, lim.maxRows, MaxLen(raw), lim.maxCols);
    }
  }

  /** Character errors are only reported for rows whose size is within the limits. */
  lemma CheckRowsSizeFirst(raw: seq<string>, lim: Limits)
    requires CheckRows(raw, lim).Err? && CheckRows(raw, lim).error.InvalidCharacters?
    ensures 1 <= |raw| <= lim.maxRows && MaxLen(raw) <= lim.maxCols
  {
  }

  /** Checks that pass on clean, non-blank rows give a rectangle within the limits whose
      rows start as the raw rows do and whose cells are all in the alphabet or spaces. */
  lemma CheckRowsSuccess(raw: seq<string>, lim: Limits)
    requires CheckRows(raw, lim).Ok?
    requires CleanRows(raw) == raw
    requires forall k :: 0 <= k < |raw| ==> raw[k] != []
    ensures var g := CheckRows(raw, lim).value;
      1 <= |g| == |raw| <= lim.maxRows && 1 <= |g[0]| <= lim.maxCols
      && (forall k :: 0 <= k < |g| ==> |g[k]| == |g[0]| && g[k][0] == raw[k][0])
      && (forall r, c :: 0 <= r < |g| && 0 <= c < |g[r]| ==> IsGridChar(g[r][c]))
  {
    var g := CheckRows(raw, lim).value;
    var w := MaxLen(raw);
    CheckRowsOk(raw, lim);
    assert Normalize(raw).value == PadRows(raw, w);
    InvalidCellsEmptyIff(g);
    PaddedShape(raw, w);
  }

  /** A grid that passes has been normalised and holds no invalid cell. */
  lemma CheckRowsOk(raw: seq<string>, lim: Limits)
    requires CheckRows(raw, lim).Ok?
    ensures raw != [] && |raw| <= lim.maxRows && MaxLen(raw) <= lim.maxCols
    ensures Normalize(raw).Ok? && CheckRows(raw, lim).value == Normalize(raw).value
    ensures InvalidCells(Normalize(raw).value) == {}
  {
  }

  /** Padding non-empty rows to the widest one keeps each row's first character. */
  lemma PaddedShape(raw: seq<string>, w: nat)
    requires raw != [] && w == MaxLen(raw)
    requires forall k :: 0 <= k < |raw| ==> raw[k] != []
    ensures var g := PadRows(raw, w);
      1 <= |g[0]| == w && forall k :: 0 <= k < |g| ==> |g[k]| == |g[0]| && g[k][0] == raw[k][0]
  {
    var g := PadRows(raw, w);
    PadRowsShape(raw, w);
    assert |raw[0]| <= w;
    forall k | 0 <= k < |g| ensures g[k][0] == raw[k][0] {
      assert g[k][..|raw[k]|][0] == raw[k][0];
    }
  }

  /** Blank input, and only blank input, is rejected as empty. */
  lemma EmptyInputIffBlank(text: string, lim: Limits)
    ensures Parse(text, lim) == Err(EmptyInput) <==> AllSpace(text)
  {
    StripEmptyIffAllSpace(text);
    if !AllSpace(text) && MazeText(text).Ok? && MazeText(text).value != [] {
      var raw := RawRows(MazeText(text).value);
      if raw != [] && |raw| <= lim.maxRows && MaxLen(raw) <= lim.maxCols
         && |raw| * MaxLen(raw) <= lim.maxCells {
        NormalizeShape(raw);
      }
    }
  }

  /** Neither "no rows" error can be raised: a non-blank extraction always leaves a row,
      and cleaning the raw rows again removes nothing. */
  lemma ParseNeverLosesAllRows(text: string, lim: Limits)
    ensures Parse(text, lim) != Err(NoRowsAfterSplit)
    ensures Parse(text, lim) != Err(NoRowsAfterCleaning)
  {
    if Strip(text) != [] && MazeText(text).Ok? && MazeText(text).value != [] {
      var raw := RawRows(MazeText(text).value);
      MazeTextRows(text);
      CheckRowsKeepsRows(raw, lim);
      assert Parse(text, lim) == CheckRows(raw, lim);
    }
  }

  /** Clean, non-empty raw rows never fail for lack of rows. */
  lemma CheckRowsKeepsRows(raw: seq<string>, lim: Limits)
    requires raw != [] && CleanRows(raw) == raw
    ensures CheckRows(raw, lim).Err? ==>
      !CheckRows(raw, lim).error.NoRowsAfterSplit? && !CheckRows(raw, lim).error.NoRowsAfterCleaning?
  {
    var w := MaxLen(raw);
    if |raw| > lim.maxRows {
      assert CheckRows(raw, lim) == Err(TooTall(|raw|));
    } else if w > lim.maxCols {
      assert CheckRows(raw, lim) == Err(TooWide(w));
    } else if |raw| * w > lim.maxCells {
      assert CheckRows(raw, lim) == Err(TooLarge(|raw|, w));
    } else {
      NormalizeClean(raw);
      var g := PadRows(raw, w);
      assert CheckRows(raw, lim) == if InvalidCells(g) != {} then Err(InvalidCharacters(InvalidCells(g))) else Ok(g);
    }
  }

  lemma NormalizeClean(raw: seq<string>)
    requires raw != [] && CleanRows(raw) == raw
    ensures Normalize(raw) == Ok(PadRows(raw, MaxLen(raw)))
  {
  }

  /** With consistent limits the cell-count error is never raised. */
  lemma CellCheckSubsumed(text: string, lim: Limits)
    requires lim.Consistent()
    ensures Parse(text, lim).Err? ==> !Parse(text, lim).error.TooLarge?
  {
    if Strip(text) != [] && MazeText(text).Ok? && MazeText(text).value != [] {
      CheckRowsNeverTooLarge(RawRows(MazeText(text).value), lim);
    }
  }

  /** Character errors are only reported for input whose size is within the limits. */
  lemma SizeCheckedBeforeCharacters(text: string, lim: Limits)
    requires Parse(text, lim).Err? && Parse(text, lim).error.InvalidCharacters?
    ensures MazeText(text).Ok?
    ensures var raw := RawRows(MazeText(text).value);
            1 <= |raw| <= lim.maxRows && MaxLen(raw) <= lim.maxCols
  {
    CheckRowsSizeFirst(RawRows(MazeText(text).value), lim);
  }

  /** A successful parse is a non-empty rectangle within the limits, every row starting
      with a non-blank character, every cell in the alphabet or a space. */
  lemma ParseSuccess(text: string, lim: Limits)
    requires Parse(text, lim).Ok?
    ensures var g := Parse(text, lim).value;
      1 <= |g| <= lim.maxRows && 1 <= |g[0]| <= lim.maxCols
      && (forall k :: 0 <= k < |g| ==> |g[k]| == |g[0]| && !IsSpace(g[k][0]))
      && (forall r, c :: 0 <= r < |g| && 0 <= c < |g[r]| ==> IsGridChar(g[r][c]))
  {
    var mt := MazeText(text).value;
    var raw := RawRows(mt);
    assert Parse(text, lim) == CheckRows(raw, lim);
    MazeTextRows(text);
    CleanRowsStripped(SplitLines(mt));
    CheckRowsSuccess(raw, lim);
  }

  // ---------------------------------------------------------------------
  // Positions and counts, in row-major order.

  /** Cells of `row` (row number `r`) among its first `j` columns that hold `t`, left to right. */
  function RowOccurrences(row: string, r: int, t: char, j: nat): seq<Pos>
    requires j <= |row|
  {
    if j == 0 then []
    else RowOccurrences(row, r, t, j - 1) + (if row[j - 1] == t then [Pos(r, j - 1)] else [])
  }

  /** Cells holding `t` in the first `i` rows, in row-major order. */
  function GridOccurrences(grid: Grid, t: char, i: nat): seq<Pos>
    requires i <= |grid|
  {
    if i == 0 then []
    else GridOccurrences(grid, t, i - 1) + RowOccurrences(grid[i - 1], i - 1, t, |grid[i - 1]|)
  }

  /** Every cell of `grid` holding `t`, in row-major order. */
  function Occurrences(grid: Grid, t: char): (ps: seq<Pos>)
    ensures forall p :: p in ps <==> InGrid(grid, p) && grid[p.r][p.c] == t
  {
    GridOccurrencesMembers(grid, t, |grid|);
    GridOccurrences(grid, t, |grid|)
  }

  lemma {:induction false} RowOccurrencesMembers(row: string, r: int, t: char, j: nat)
    requires j <= |row|
    ensures forall p :: p in RowOccurrences(row, r, t, j) <==> p.r == r && 0 <= p.c < j && row[p.c] == t
  {
    if j > 0 {
      RowOccurrencesMembers(row, r, t, j - 1);
    }
  }

  lemma {:induction false} GridOccurrencesMembers(grid: Grid, t: char, i: nat)
    requires i <= |grid|
    ensures forall p :: p in GridOccurrences(grid, t, i) <==>
      0 <= p.r < i && 0 <= p.c < |grid[p.r]| && grid[p.r][p.c] == t
  {
    if i > 0 {
      GridOccurrencesMembers(grid, t, i - 1);
      RowOccurrencesMembers(grid[i - 1], i - 1, t, |grid[i - 1]|);
    }
  }

  lemma {:induction false} RowOccurrencesOrdered(row: string, r: int, t: char, j: nat)
    requires j <= |row|
    ensures forall a, b :: 0 <= a < b < |RowOccurrences(row, r, t, j)| ==>
      RowOccurrences(row, r, t, j)[a].c < RowOccurrences(row, r, t, j)[b].c
  {
    if j > 0 {
      RowOccurrencesOrdered(row, r, t, j - 1);
      RowOccurrencesMembers(row, r, t, j - 1);
    }
  }

  lemma {:induction false} GridOccurrencesOrdered(grid: Grid, t: char, i: nat)
    requires i <= |grid|
    ensures forall a, b :: 0 <= a < b < |GridOccurrences(grid, t, i)| ==>
      Before(GridOccurrences(grid, t, i)[a], GridOccurrences(grid, t, i)[b])
  {
    if i > 0 {
      GridOccurrencesOrdered(grid, t, i - 1);
      var prev := GridOccurrences(grid, t, i - 1);
      var row := RowOccurrences(grid[i - 1], i - 1, t, |grid[i - 1]|);
      RowOccurrencesOrdered(grid[i - 1], i - 1, t, |grid[i - 1]|);
      GridOccurrencesMembers(grid, t, i - 1);
      RowOccurrencesMembers(grid[i - 1], i - 1, t, |grid[i - 1]|);
      var all := prev + row;
      forall a, b | 0 <= a < b < |all| ensures Before(all[a], all[b]) {
        if b < |prev| {
        } else if a < |prev| {
          assert all[a] in prev && all[b] in row;
        } else {
          assert all[a] == row[a - |prev|] && all[b] == row[b - |prev|];
        }
      }
    }
  }

  /** Occurrences are listed in strict row-major order. */
  lemma OccurrencesRowMajor(grid: Grid, t: char)
    ensures forall a, b :: 0 <= a < b < |Occurrences(grid, t)| ==>
      Before(Occurrences(grid, t)[a], Occurrences(grid, t)[b])
  {
    GridOccurrencesOrdered(grid, t, |grid|);
  }

  /** How many cells hold `t`; zero exactly when none does. */
  function CountOf(grid: Grid, t: char): (n: nat)
    ensures n == 0 <==> forall r, c :: 0 <= r < |grid| && 0 <= c < |grid[r]| ==> grid[r][c] != t
  {
    var ps := Occurrences(grid, t);
    assert forall r, c :: 0 <= r < |grid| && 0 <= c < |grid[r]| && grid[r][c] == t ==> Pos(r, c) in ps;
    assert ps != [] ==> ps[0] in ps;
    |ps|
  }

  /** The first row-major cell holding `t`, or (-1, -1) when there is none. */
  function FirstPosition(grid: Grid, t: char): (p: Pos)
    ensures p == Pos(-1, -1) <==> forall r, c :: 0 <= r < |grid| && 0 <= c < |grid[r]| ==> grid[r][c] != t
    ensures p != Pos(-1, -1) ==> InGrid(grid, p) && grid[p.r][p.c] == t
    ensures forall q :: InGrid(grid, q) && Before(q, p) ==> grid[q.r][q.c] != t
  {
    var ps := Occurrences(grid, t);
    OccurrencesRowMajor(grid, t);
    assert forall r, c :: 0 <= r < |grid| && 0 <= c < |grid[r]| && grid[r][c] == t ==> Pos(r, c) in ps;
    if ps == [] then Pos(-1, -1) else ps[0]
  }

  /** A cell holding `t` with no earlier such cell is the first position. */
  lemma FirstPositionIs(grid: Grid, t: char, p: Pos)
    requires InGrid(grid, p) && grid[p.r][p.c] == t
    requires forall q :: InGrid(grid, q) && Before(q, p) ==> grid[q.r][q.c] != t
    ensures FirstPosition(grid, t) == p
  {
    var f := FirstPosition(grid, t);
    assert f != Pos(-1, -1);
    assert !Before(f, p) && !Before(p, f);
  }

  /** The first occurrence, checked row by row: no earlier row holds `t`, nor the
      part of its own row before it. */
  lemma FirstPositionByRows(grid: Grid, t: char, p: Pos)
    requires InGrid(grid, p) && grid[p.r][p.c] == t
    requires forall r :: 0 <= r < p.r ==> t !in grid[r]
    requires t !in grid[p.r][..p.c]
    ensures FirstPosition(grid, t) == p
  {
    forall q | InGrid(grid, q) && Before(q, p) ensures grid[q.r][q.c] != t {
      if q.r < p.r {
        assert grid[q.r][q.c] in grid[q.r];
      } else {
        assert grid[q.r][q.c] == grid[p.r][..p.c][q.c];
      }
    }
    FirstPositionIs(grid, t, p);
  }

  /** `find_position`. */
  method FindPosition(grid: Grid, target: char) returns (p: Pos)
    ensures p == FirstPosition(grid, target)
  {
    for i := 0 to |grid|
      invariant forall r, c :: 0 <= r < i && 0 <= c < |grid[r]| ==> grid[r][c] != target
    {
      for j := 0 to |grid[i]|
        invariant forall r, c :: ((0 <= r < i && 0 <= c < |grid[r]|) || (r == i && 0 <= c < j))
                    ==> grid[r][c] != target
      {
        if grid[i][j] == target {
          FirstPositionIs(grid, target, Pos(i, j));
          return Pos(i, j);
        }
      }
    }
    return Pos(-1, -1);
  }

  /** `find_all_positions`: one row-major list per requested character. */
  method FindAllPositions(grid: Grid, targets: set<char>) returns (positions: map<char, seq<Pos>>)
    ensures positions.Keys == targets
    ensures forall t :: t in targets ==> positions[t] == Occurrences(grid, t)
  {
    positions := map t | t in targets :: [];
    for i := 0 to |grid|
      invariant positions.Keys == targets
      invariant forall t :: t in targets ==> positions[t] == GridOccurrences(grid, t, i)
    {
      positions := RowPositions(grid, i, targets, positions);
    }
  }

  /** One pass of `find_all_positions`' inner loop: row `i`'s occurrences appended. */
  method RowPositions(grid: Grid, i: nat, targets: set<char>, before: map<char, seq<Pos>>)
    returns (positions: map<char, seq<Pos>>)
    requires i < |grid| && before.Keys == targets
    ensures positions.Keys == targets
    ensures forall t :: t in targets ==> positions[t] == before[t] + RowOccurrences(grid[i], i, t, |grid[i]|)
  {
    positions := before;
    for j := 0 to |grid[i]|
      invariant positions.Keys == targets
      invariant forall t :: t in targets ==> positions[t] == before[t] + RowOccurrences(grid[i], i, t, j)
    {
      var ch := grid[i][j];
      if ch in targets {
        positions := positions[ch := positions[ch] + [Pos(i, j)]];
      }
    }
  }

  /** The characters `count_elements` reports: the named ones, space and both letter ranges. */
  predicate IsTracked(ch: char) { ch in NamedMazeChars || ch == ' ' || IsLower(ch) || IsUpper(ch) }

  /** One of `count_elements`'s set-up loops: an entry of 0 for every character from `lo` to `hi`. */
  method AddZeroes(counts0: map<char, nat>, lo: char, hi: char) returns (counts: map<char, nat>)
    requires lo <= hi && hi as int < 0xD800
    ensures forall ch :: ch in counts <==> ch in counts0 || lo <= ch <= hi
    ensures forall ch :: ch in counts ==> counts[ch] == (if lo <= ch <= hi then 0 else counts0[ch])
  {
    counts := counts0;
    for i := lo as int to hi as int + 1
      invariant forall ch :: ch in counts <==> ch in counts0 || lo as int <= ch as int < i
      invariant forall ch :: ch in counts ==> counts[ch] == (if lo as int <= ch as int < i then 0 else counts0[ch])
    {
      counts := counts[i as char := 0];
    }
  }

  /** `count_elements`: every tracked character mapped to its number of cells, zero included. */
  method CountElements(grid: Grid) returns (counts: map<char, nat>)
    ensures forall ch :: ch in counts <==> IsTracked(ch)
    ensures forall ch :: ch in counts ==> counts[ch] == CountOf(grid, ch)
  {
    counts := map ch | ch in NamedMazeChars + {' '} :: 0;
    counts := AddZeroes(counts, 'a', 'z');
    counts := AddZeroes(counts, 'A', 'Z');
    for r := 0 to |grid|
      invariant forall ch :: ch in counts <==> IsTracked(ch)
      invariant forall ch :: ch in counts ==> counts[ch] == |GridOccurrences(grid, ch, r)|
    {
      counts := RowCounts(grid, r, counts);
    }
  }

  /** One pass of `count_elements`' inner loop: row `r`'s cells counted. */
  method RowCounts(grid: Grid, r: nat, before: map<char, nat>) returns (counts: map<char, nat>)
    requires r < |grid|
    ensures counts.Keys == before.Keys
    ensures forall ch :: ch in counts ==> counts[ch] == before[ch] + |RowOccurrences(grid[r], r, ch, |grid[r]|)|
  {
    counts := before;
    for c := 0 to |grid[r]|
      invariant counts.Keys == before.Keys
      invariant forall ch :: ch in counts ==> counts[ch] == before[ch] + |RowOccurrences(grid[r], r, ch, c)|
    {
      var ch := grid[r][c];
      if ch in counts {
        counts := counts[ch := counts[ch] + 1];
      }
    }
  }
}
