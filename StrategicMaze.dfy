/** A parsed maze together with the strategic elements found by one row-major
    scan: teleporter origins and destinations numbered by discovery, switches,
    movable blocks, bonus exits and conditional doors. */
module MazeModel {
  import opened MazeCommon
  import opened MazeParsing

  /** What the element scan records. */
  datatype Elements = Elements(
    teleportersO: map<Pos, nat>,
    teleportersQ: map<Pos, nat>,
    switches: set<Pos>,
    movableBlocks: seq<Pos>,
    bonusExits: map<char, Pos>,
    conditionalDoors: map<char, Pos>)

  const NoElements := Elements(map[], map[], {}, [], map[], map[])

  predicate IsBonusExit(ch: char) { ch == 'F' || ch == 'G' || ch == 'H' }

  predicate IsConditionalDoor(ch: char) { ch == 'X' || ch == 'Y' || ch == 'Z' }

  /** The effect of scanning one cell. */
  function Record(e: Elements, ch: char, p: Pos): Elements
  {
    if ch == 'O' then e.(teleportersO := e.teleportersO[p := |e.teleportersO|])
    else if ch == 'Q' then e.(teleportersQ := e.teleportersQ[p := |e.teleportersQ|])
    else if ch == 's' then e.(switches := e.switches + {p})
    else if ch == 'B' then e.(movableBlocks := e.movableBlocks + [p])
    else if IsBonusExit(ch) then e.(bonusExits := e.bonusExits[ch := p])
    else if IsConditionalDoor(ch) then e.(conditionalDoors := e.conditionalDoors[ch := p])
    else e
  }

  /** Scanning the first `n` cells of row `r`, starting from `e`. */
  function ScanRow(e: Elements, row: string, r: int, n: nat): Elements
    requires n <= |row|
  {
    if n == 0 then e else Record(ScanRow(e, row, r, n - 1), row[n - 1], Pos(r, n - 1))
  }

  /** Scanning the first `i` rows, each only up to column `cols`. */
  function ScanRows(grid: Grid, cols: nat, i: nat): Elements
    requires i <= |grid|
  {
    if i == 0 then NoElements
    else ScanRow(ScanRows(grid, cols, i - 1), grid[i - 1], i - 1, Min(cols, |grid[i - 1]|))
  }

  /** The width the maze takes from its first row. */
  function Width(grid: Grid): nat { if grid == [] then 0 else |grid[0]| }

  predicate Rectangular(grid: Grid) { forall r :: 0 <= r < |grid| ==> |grid[r]| == Width(grid) }

  /** `_analyze_elements`: the nested scan that skips columns past the end of a short row. */
  method AnalyzeElements(grid: Grid, cols: nat) returns (e: Elements)
    ensures e == ScanRows(grid, cols, |grid|)
  {
    e := NoElements;
    for r := 0 to |grid|
      invariant e == ScanRows(grid, cols, r)
    {
      ghost var e0 := e;
      for c := 0 to cols
        invariant e == ScanRow(e0, grid[r], r, Min(c, |grid[r]|))
      {
        if c >= |grid[r]| {
          continue;
        }
        var ch := grid[r][c];
        var pos := Pos(r, c);
        if ch == 'O' {
          e := e.(teleportersO := e.teleportersO[pos := |e.teleportersO|]);
        } else if ch == 'Q' {
          e := e.(teleportersQ := e.teleportersQ[pos := |e.teleportersQ|]);
        } else if ch == 's' {
          e := e.(switches := e.switches + {pos});
        } else if ch == 'B' {
          e := e.(movableBlocks := e.movableBlocks + [pos]);
        } else if IsBonusExit(ch) {
          e := e.(bonusExits := e.bonusExits[ch := pos]);
        } else if IsConditionalDoor(ch) {
          e := e.(conditionalDoors := e.conditionalDoors[ch := pos]);
        }
      }
    }
  }

  class StrategicMaze {
    const grid: Grid
    const rows: nat
    const cols: nat
    const teleportersO: map<Pos, nat>
    const teleportersQ: map<Pos, nat>
    const switches: set<Pos>
    const movableBlocks: seq<Pos>
    const bonusExits: map<char, Pos>
    const conditionalDoors: map<char, Pos>

    /** The element tables are exactly what the scan of `grid` records. */
    predicate Valid()
    {
      rows == |grid| && cols == Width(grid)
      && Elements(teleportersO, teleportersQ, switches, movableBlocks, bonusExits, conditionalDoors)
         == ScanRows(grid, cols, rows)
    }

    constructor(grid: Grid)
      ensures this.grid == grid && rows == |grid| && cols == Width(grid)
      ensures Valid()
    {
      this.grid := grid;
      rows := |grid|;
      cols := Width(grid);
      var e := AnalyzeElements(grid, Width(grid));
      teleportersO := e.teleportersO;
      teleportersQ := e.teleportersQ;
      switches := e.switches;
      movableBlocks := e.movableBlocks;
      bonusExits := e.bonusExits;
      conditionalDoors := e.conditionalDoors;
    }

    /** Whether Python's `get_cell` can index this position at all: a row index
        below `-rows` or a column index below `-len(row)` raises `IndexError`. */
    predicate CellDefined(p: Pos)
    {
      p.r >= |grid| || (-|grid| <= p.r && (p.c >= |grid[Wrap(p.r, |grid|)]| || -|grid[Wrap(p.r, |grid|)]| <= p.c))
    }

    /** `get_cell`: a space past the last row or column, Python's wrap-around for
        negative indices, and (outside `CellDefined`) a space in place of `IndexError`. */
    function GetCell(p: Pos): (ch: char)
      ensures InGrid(grid, p) ==> ch == grid[p.r][p.c]
      ensures p.r >= |grid| ==> ch == ' '
      ensures 0 <= p.r < |grid| && p.c >= |grid[p.r]| ==> ch == ' '
      ensures -|grid| <= p.r < 0 && 0 <= p.c < |grid[p.r + |grid|]| ==> ch == grid[p.r + |grid|][p.c]
      ensures 0 <= p.r < |grid| && -|grid[p.r]| <= p.c < 0 ==> ch == grid[p.r][p.c + |grid[p.r]|]
    {
      if p.r >= |grid| || p.r < -|grid| then ' '
      else
        var row := grid[Wrap(p.r, |grid|)];
        if p.c >= |row| || p.c < -|row| then ' ' else row[Wrap(p.c, |row|)]
    }

    /** `is_traversable`: an in-grid cell that `get_cell` does not report as a wall. */
    predicate IsTraversable(p: Pos): (r: bool)
      ensures r <==> InGrid(grid, p) && GetCell(p) != '#'
    {
      0 <= p.r < |grid| && 0 <= p.c < |grid[p.r]| && grid[p.r][p.c] != '#'
    }

    /** `is_wall`, for positions Python can index: inside the grid it is the opposite of
        `is_traversable`, and a column past the row's end counts as a wall. */
    predicate IsWall(p: Pos): (r: bool)
      requires -|grid| <= p.r < |grid|
      requires p.c >= |grid[Wrap(p.r, |grid|)]| || -|grid[Wrap(p.r, |grid|)]| <= p.c
      ensures InGrid(grid, p) ==> (r <==> !IsTraversable(p))
      ensures 0 <= p.r && p.c >= |grid[p.r]| ==> r
    {
      var row := grid[Wrap(p.r, |grid|)];
      p.c >= |row| || row[Wrap(p.c, |row|)] == '#'
    }

    /** `teleport_destinations`: the destinations sharing the origin's discovery index. */
    function TeleportDestinations(p: Pos): (r: set<Pos>)
      ensures p !in teleportersO ==> r == {}
      ensures r <= teleportersQ.Keys
    {
      if p !in teleportersO then {}
      else set q | q in teleportersQ && teleportersQ[q] == teleportersO[p]
    }

    /** Each origin has at most one destination, only origins have any, and every
        destination is a 'Q' cell of the grid. */
    lemma TeleportDestinationsAtMostOne(p: Pos)
      requires Valid()
      ensures |TeleportDestinations(p)| <= 1
      ensures p !in teleportersO ==> TeleportDestinations(p) == {}
      ensures forall q :: q in TeleportDestinations(p) ==> q in teleportersQ && GetCell(q) == 'Q'
    {
      assert teleportersQ == ScanRows(grid, cols, |grid|).teleportersQ;
      DestinationTable(grid, cols);
      if p in teleportersO {
        var ds := TeleportDestinations(p);
        if ds != {} {
          var q :| q in ds;
          assert ds <= {q};
          SubsetCardinality(ds, {q});
        }
      }
    }
  }

  /** The destination table holds only 'Q' cells of the grid, and no two share a number. */
  lemma DestinationTable(grid: Grid, cols: nat)
    ensures var m := ScanRows(grid, cols, |grid|).teleportersQ;
      (forall q :: q in m ==> InGrid(grid, q) && grid[q.r][q.c] == 'Q')
      && (forall a, b :: a in m && b in m && m[a] == m[b] ==> a == b)
  {
    var m := ScanRows(grid, cols, |grid|).teleportersQ;
    var qs := Occurrences(Truncate(grid, cols), 'Q');
    assert m == IndexMap(qs) by {
      ScanRowsTele(grid, cols, |grid|, 'Q');
    }
    OccurrencesDistinct(Truncate(grid, cols), 'Q');
    IndexMapAt(qs);
    forall q | q in m ensures InGrid(grid, q) && grid[q.r][q.c] == 'Q' {
      TruncateCell(grid, cols, q);
    }
    forall a, b | a in m && b in m && m[a] == m[b] ensures a == b {
      var i :| 0 <= i < |qs| && qs[i] == a;
      var j :| 0 <= j < |qs| && qs[j] == b;
    }
  }

  /** Python's index wrap-around for an index already known to be in `[-n, n)`. */
  function Wrap(i: int, n: nat): int
  {
    if i < 0 then i + n else i
  }

  // ---------------------------------------------------------------------
  // The scan in terms of row-major occurrence lists.

  /** The cells the scan visits: each row cut at column `cols`. */
  function Truncate(grid: Grid, cols: nat): (t: Grid)
    ensures |t| == |grid|
    ensures forall r :: 0 <= r < |grid| ==> t[r] == grid[r][..Min(cols, |grid[r]|)]
  {
    seq(|grid|, r requires 0 <= r < |grid| => grid[r][..Min(cols, |grid[r]|)])
  }

  lemma TruncateCell(grid: Grid, cols: nat, p: Pos)
    requires InGrid(Truncate(grid, cols), p)
    ensures InGrid(grid, p) && Truncate(grid, cols)[p.r][p.c] == grid[p.r][p.c]
  {
  }

  lemma TruncateRectangular(grid: Grid)
    requires Rectangular(grid)
    ensures Truncate(grid, Width(grid)) == grid
  {
    var t := Truncate(grid, Width(grid));
    forall r | 0 <= r < |grid| ensures t[r] == grid[r] {
      assert grid[r][..|grid[r]|] == grid[r];
    }
  }

  /** Numbering a list by position: its `k`-th element maps to `k`. */
  function IndexMap(ps: seq<Pos>): map<Pos, nat>
  {
    if ps == [] then map[] else IndexMap(ps[..|ps| - 1])[ps[|ps| - 1] := |ps| - 1]
  }

  predicate Distinct(ps: seq<Pos>) { forall a, b :: 0 <= a < b < |ps| ==> ps[a] != ps[b] }

  /** On a list without repeats, the numbering has one key per element and gives the k-th
      element the number k. */
  lemma {:induction false} IndexMapAt(ps: seq<Pos>)
    requires Distinct(ps)
    ensures |IndexMap(ps)| == |ps|
    ensures forall p :: p in IndexMap(ps) <==> p in ps
    ensures forall k :: 0 <= k < |ps| ==> IndexMap(ps)[ps[k]] == k
  {
    if ps != [] {
      var init := ps[..|ps| - 1];
      IndexMapAt(init);
      assert ps[|ps| - 1] !in init;
      forall k | 0 <= k < |ps| - 1 ensures IndexMap(ps)[ps[k]] == k {
        assert ps[k] == init[k];
      }
    }
  }

  lemma GridOccurrencesDistinct(grid: Grid, t: char, i: nat)
    requires i <= |grid|
    ensures Distinct(GridOccurrences(grid, t, i))
  {
    GridOccurrencesOrdered(grid, t, i);
  }

  lemma OccurrencesDistinct(grid: Grid, t: char)
    ensures Distinct(Occurrences(grid, t))
  {
    OccurrencesRowMajor(grid, t);
  }

  lemma SubsetCardinality<T>(a: set<T>, b: set<T>)
    requires a <= b
    ensures |a| <= |b|
    decreases b
  {
    if a != {} {
      var x :| x in a;
      SubsetCardinality(a - {x}, b - {x});
    }
  }

  function TeleMap(e: Elements, t: char): map<Pos, nat>
  {
    if t == 'O' then e.teleportersO else e.teleportersQ
  }

  function LetterMap(e: Elements, t: char): map<char, Pos>
  {
    if IsBonusExit(t) then e.bonusExits else e.conditionalDoors
  }

  lemma DistinctPrefix(ps: seq<Pos>, k: nat)
    requires k <= |ps| && Distinct(ps)
    ensures Distinct(ps[..k])
  {
  }

  lemma RecordTele(e: Elements, ch: char, p: Pos, t: char)
    requires t == 'O' || t == 'Q'
    ensures TeleMap(Record(e, ch, p), t) ==
      if ch == t then TeleMap(e, t)[p := |TeleMap(e, t)|] else TeleMap(e, t)
  {
  }

  lemma IndexMapAppend(ps: seq<Pos>, p: Pos)
    ensures IndexMap(ps + [p]) == IndexMap(ps)[p := |ps|]
  {
    assert (ps + [p])[..|ps|] == ps;
  }

  /** Scanning part of a row extends a teleporter numbering by that row's matches. */
  lemma {:induction false} ScanRowTele(e: Elements, row: string, r: int, n: nat, t: char, before: seq<Pos>)
    requires n <= |row| && (t == 'O' || t == 'Q')
    requires TeleMap(e, t) == IndexMap(before)
    requires Distinct(before + RowOccurrences(row, r, t, n))
    ensures TeleMap(ScanRow(e, row, r, n), t) == IndexMap(before + RowOccurrences(row, r, t, n))
  {
    if n > 0 {
      var p := Pos(r, n - 1);
      var prev := before + RowOccurrences(row, r, t, n - 1);
      var all := before + RowOccurrences(row, r, t, n);
      assert all == prev + (if row[n - 1] == t then [p] else []);
      assert all[..|prev|] == prev;
      DistinctPrefix(all, |prev|);
      ScanRowTele(e, row, r, n - 1, t, before);
      var e1 := ScanRow(e, row, r, n - 1);
      RecordTele(e1, row[n - 1], p, t);
      assert ScanRow(e, row, r, n) == Record(e1, row[n - 1], p);
      if row[n - 1] == t {
        IndexMapAt(prev);
        IndexMapAppend(prev, p);
      } else {
        assert all == prev;
      }
    } else {
      assert before + RowOccurrences(row, r, t, n) == before;
    }
  }

  lemma RecordSwitches(e: Elements, ch: char, p: Pos)
    ensures Record(e, ch, p).switches == if ch == 's' then e.switches + {p} else e.switches
  {
  }

  lemma RecordBlocks(e: Elements, ch: char, p: Pos)
    ensures Record(e, ch, p).movableBlocks == if ch == 'B' then e.movableBlocks + [p] else e.movableBlocks
  {
  }

  /** Scanning part of a row adds that row's switch cells. */
  lemma {:induction false} ScanRowSwitches(e: Elements, row: string, r: int, n: nat)
    requires n <= |row|
    ensures forall q :: q in ScanRow(e, row, r, n).switches <==> q in e.switches || q in RowOccurrences(row, r, 's', n)
  {
    if n > 0 {
      var e1, p := ScanRow(e, row, r, n - 1), Pos(r, n - 1);
      ScanRowSwitches(e, row, r, n - 1);
      RecordSwitches(e1, row[n - 1], p);
      assert RowOccurrences(row, r, 's', n)
        == RowOccurrences(row, r, 's', n - 1) + (if row[n - 1] == 's' then [p] else []);
    }
  }

  /** Scanning part of a row appends that row's blocks in column order. */
  lemma {:induction false} ScanRowBlocks(e: Elements, row: string, r: int, n: nat)
    requires n <= |row|
    ensures ScanRow(e, row, r, n).movableBlocks == e.movableBlocks + RowOccurrences(row, r, 'B', n)
  {
    if n > 0 {
      var e1, p := ScanRow(e, row, r, n - 1), Pos(r, n - 1);
      ScanRowBlocks(e, row, r, n - 1);
      RecordBlocks(e1, row[n - 1], p);
      assert RowOccurrences(row, r, 'B', n)
        == RowOccurrences(row, r, 'B', n - 1) + (if row[n - 1] == 'B' then [p] else []);
    }
  }

  /** `m` maps `t` to the last of `occ`, and holds no entry for `t` when `occ` is empty. */
  predicate LastMatch(m: map<char, Pos>, occ: seq<Pos>, t: char)
  {
    (t in m <==> occ != []) && (occ != [] ==> m[t] == occ[|occ| - 1])
  }

  /** Scanning part of a row makes a letter's entry that row's last match, if any. */
  lemma {:induction false} ScanRowLetter(e: Elements, row: string, r: int, n: nat, t: char, before: seq<Pos>)
    requires n <= |row| && (IsBonusExit(t) || IsConditionalDoor(t))
    requires LastMatch(LetterMap(e, t), before, t)
    ensures LastMatch(LetterMap(ScanRow(e, row, r, n), t), before + RowOccurrences(row, r, t, n), t)
  {
    if n > 0 {
      var p := Pos(r, n - 1);
      var e1 := ScanRow(e, row, r, n - 1);
      var prev := before + RowOccurrences(row, r, t, n - 1);
      ScanRowLetter(e, row, r, n - 1, t, before);
      assert ScanRow(e, row, r, n) == Record(e1, row[n - 1], p);
      RecordLetter(e1, row[n - 1], p, t);
      assert before + RowOccurrences(row, r, t, n) == prev + (if row[n - 1] == t then [p] else []);
    } else {
      assert before + RowOccurrences(row, r, t, n) == before;
    }
  }

  lemma RecordLetter(e: Elements, ch: char, p: Pos, t: char)
    requires IsBonusExit(t) || IsConditionalDoor(t)
    ensures var m, m' := LetterMap(e, t), LetterMap(Record(e, ch, p), t);
      (t in m' <==> t in m || ch == t) && (ch == t ==> m'[t] == p) && (ch != t && t in m ==> m'[t] == m[t])
  {
    RecordLetterTables(e, ch, p);
  }

  lemma RecordLetterTables(e: Elements, ch: char, p: Pos)
    ensures Record(e, ch, p).bonusExits == if IsBonusExit(ch) then e.bonusExits[ch := p] else e.bonusExits
    ensures Record(e, ch, p).conditionalDoors ==
      if IsConditionalDoor(ch) then e.conditionalDoors[ch := p] else e.conditionalDoors
  {
    if IsBonusExit(ch) {
      assert Record(e, ch, p) == e.(bonusExits := e.bonusExits[ch := p]);
    } else if IsConditionalDoor(ch) {
      assert Record(e, ch, p) == e.(conditionalDoors := e.conditionalDoors[ch := p]);
    } else {
      RecordOtherTables(e, ch, p);
    }
  }

  lemma RecordOtherTables(e: Elements, ch: char, p: Pos)
    requires !IsBonusExit(ch) && !IsConditionalDoor(ch)
    ensures Record(e, ch, p).bonusExits == e.bonusExits
    ensures Record(e, ch, p).conditionalDoors == e.conditionalDoors
  {
    if ch == 'O' {
      assert Record(e, ch, p) == e.(teleportersO := e.teleportersO[p := |e.teleportersO|]);
    } else if ch == 'Q' {
      assert Record(e, ch, p) == e.(teleportersQ := e.teleportersQ[p := |e.teleportersQ|]);
    } else if ch == 's' {
      assert Record(e, ch, p) == e.(switches := e.switches + {p});
    } else if ch == 'B' {
      assert Record(e, ch, p) == e.(movableBlocks := e.movableBlocks + [p]);
    } else {
      assert Record(e, ch, p) == e;
    }
  }

  /** The letter tables only ever hold their own three letters. */
  lemma {:induction false} ScanRowLetterKeys(e: Elements, row: string, r: int, n: nat)
    requires n <= |row|
    requires forall ch :: ch in e.bonusExits ==> IsBonusExit(ch)
    requires forall ch :: ch in e.conditionalDoors ==> IsConditionalDoor(ch)
    ensures forall ch :: ch in ScanRow(e, row, r, n).bonusExits ==> IsBonusExit(ch)
    ensures forall ch :: ch in ScanRow(e, row, r, n).conditionalDoors ==> IsConditionalDoor(ch)
  {
    if n > 0 {
      ScanRowLetterKeys(e, row, r, n - 1);
      RecordLetterTables(ScanRow(e, row, r, n - 1), row[n - 1], Pos(r, n - 1));
    }
  }

  /** The truncated grid's `i`-th row as the scan reads it. */
  lemma TruncatedRow(grid: Grid, cols: nat, i: nat, t: char)
    requires 0 < i <= |grid|
    ensures var row := grid[i - 1];
      GridOccurrences(Truncate(grid, cols), t, i)
      == GridOccurrences(Truncate(grid, cols), t, i - 1) + RowOccurrences(row, i - 1, t, Min(cols, |row|))
  {
    var row := grid[i - 1];
    var m := Min(cols, |row|);
    assert Truncate(grid, cols)[i - 1] == row[..m];
    RowOccurrencesSamePrefix(row[..m], row, i - 1, t, m);
  }

  lemma {:induction false} ScanRowsTele(grid: Grid, cols: nat, i: nat, t: char)
    requires i <= |grid| && (t == 'O' || t == 'Q')
    ensures TeleMap(ScanRows(grid, cols, i), t) == IndexMap(GridOccurrences(Truncate(grid, cols), t, i))
  {
    if i > 0 {
      ScanRowsTele(grid, cols, i - 1, t);
      ScanRowsTeleStep(grid, cols, i, t);
    }
  }

  lemma ScanRowsTeleStep(grid: Grid, cols: nat, i: nat, t: char)
    requires 0 < i <= |grid| && (t == 'O' || t == 'Q')
    requires TeleMap(ScanRows(grid, cols, i - 1), t) == IndexMap(GridOccurrences(Truncate(grid, cols), t, i - 1))
    ensures TeleMap(ScanRows(grid, cols, i), t) == IndexMap(GridOccurrences(Truncate(grid, cols), t, i))
  {
    var row, n := grid[i - 1], Min(cols, |grid[i - 1]|);
    var tg := Truncate(grid, cols);
    var prev, ro := GridOccurrences(tg, t, i - 1), RowOccurrences(row, i - 1, t, n);
    TruncatedRow(grid, cols, i, t);
    GridOccurrencesDistinct(tg, t, i);
    assert Distinct(prev + ro);
    ScanRowTele(ScanRows(grid, cols, i - 1), row, i - 1, n, t, prev);
    assert ScanRows(grid, cols, i) == ScanRow(ScanRows(grid, cols, i - 1), row, i - 1, n);
  }

  lemma {:induction false} ScanRowsSwitches(grid: Grid, cols: nat, i: nat)
    requires i <= |grid|
    ensures forall q :: q in ScanRows(grid, cols, i).switches <==> q in GridOccurrences(Truncate(grid, cols), 's', i)
  {
    if i > 0 {
      ScanRowsSwitches(grid, cols, i - 1);
      ScanRowsSwitchesStep(grid, cols, i - 1, i);
    }
  }

  lemma ScanRowsSwitchesStep(grid: Grid, cols: nat, j: nat, i: nat)
    requires i == j + 1 <= |grid|
    requires forall q :: q in ScanRows(grid, cols, j).switches <==> q in GridOccurrences(Truncate(grid, cols), 's', j)
    ensures forall q :: q in ScanRows(grid, cols, i).switches <==> q in GridOccurrences(Truncate(grid, cols), 's', i)
  {
    var row := grid[j];
    TruncatedRow(grid, cols, i, 's');
    ScanRowSwitches(ScanRows(grid, cols, j), row, j, Min(cols, |row|));
  }

  lemma {:induction false} ScanRowsBlocks(grid: Grid, cols: nat, i: nat)
    requires i <= |grid|
    ensures ScanRows(grid, cols, i).movableBlocks == GridOccurrences(Truncate(grid, cols), 'B', i)
  {
    if i > 0 {
      ScanRowsBlocks(grid, cols, i - 1);
      ScanRowsBlocksStep(grid, cols, i);
    }
  }

  lemma ScanRowsBlocksStep(grid: Grid, cols: nat, i: nat)
    requires 0 < i <= |grid|
    requires ScanRows(grid, cols, i - 1).movableBlocks == GridOccurrences(Truncate(grid, cols), 'B', i - 1)
    ensures ScanRows(grid, cols, i).movableBlocks == GridOccurrences(Truncate(grid, cols), 'B', i)
  {
    var row := grid[i - 1];
    TruncatedRow(grid, cols, i, 'B');
    ScanRowBlocks(ScanRows(grid, cols, i - 1), row, i - 1, Min(cols, |row|));
  }

  lemma {:induction false} ScanRowsLetter(grid: Grid, cols: nat, i: nat, t: char)
    requires i <= |grid| && (IsBonusExit(t) || IsConditionalDoor(t))
    ensures LastMatch(LetterMap(ScanRows(grid, cols, i), t), GridOccurrences(Truncate(grid, cols), t, i), t)
  {
    if i > 0 {
      ScanRowsLetter(grid, cols, i - 1, t);
      ScanRowsLetterStep(grid, cols, i, t);
    }
  }

  lemma ScanRowsLetterStep(grid: Grid, cols: nat, i: nat, t: char)
    requires 0 < i <= |grid| && (IsBonusExit(t) || IsConditionalDoor(t))
    requires LastMatch(LetterMap(ScanRows(grid, cols, i - 1), t), GridOccurrences(Truncate(grid, cols), t, i - 1), t)
    ensures LastMatch(LetterMap(ScanRows(grid, cols, i), t), GridOccurrences(Truncate(grid, cols), t, i), t)
  {
    var row, n := grid[i - 1], Min(cols, |grid[i - 1]|);
    TruncatedRow(grid, cols, i, t);
    ScanRowLetter(ScanRows(grid, cols, i - 1), row, i - 1, n, t, GridOccurrences(Truncate(grid, cols), t, i - 1));
  }

  lemma {:induction false} ScanRowsLetterKeys(grid: Grid, cols: nat, i: nat)
    requires i <= |grid|
    ensures forall ch :: ch in ScanRows(grid, cols, i).bonusExits ==> IsBonusExit(ch)
    ensures forall ch :: ch in ScanRows(grid, cols, i).conditionalDoors ==> IsConditionalDoor(ch)
  {
    if i > 0 {
      ScanRowsLetterKeys(grid, cols, i - 1);
      var row := grid[i - 1];
      ScanRowLetterKeys(ScanRows(grid, cols, i - 1), row, i - 1, Min(cols, |row|));
    }
  }

  /** The scan numbers teleporters by row-major discovery order, keeps the switch
      cells, lists blocks in row-major order, and keeps the last bonus exit and
      conditional door of each letter; only the columns before `cols` are seen. */
  lemma ScanMatchesOccurrences(grid: Grid, cols: nat)
    ensures var e, tg := ScanRows(grid, cols, |grid|), Truncate(grid, cols);
      e.teleportersO == IndexMap(Occurrences(tg, 'O'))
      && e.teleportersQ == IndexMap(Occurrences(tg, 'Q'))
      && e.switches == (set p | p in Occurrences(tg, 's'))
      && e.movableBlocks == Occurrences(tg, 'B')
      && (forall ch :: ch in e.bonusExits <==> IsBonusExit(ch) && Occurrences(tg, ch) != [])
      && (forall ch :: ch in e.conditionalDoors <==> IsConditionalDoor(ch) && Occurrences(tg, ch) != [])
      && (forall ch :: ch in e.bonusExits ==> e.bonusExits[ch] == Occurrences(tg, ch)[|Occurrences(tg, ch)| - 1])
      && (forall ch :: ch in e.conditionalDoors ==>
            e.conditionalDoors[ch] == Occurrences(tg, ch)[|Occurrences(tg, ch)| - 1])
  {
    ScanTables(grid, cols);
    ScanBonusExits(grid, cols);
    ScanConditionalDoors(grid, cols);
  }

  lemma ScanTables(grid: Grid, cols: nat)
    ensures var e, tg := ScanRows(grid, cols, |grid|), Truncate(grid, cols);
      e.teleportersO == IndexMap(Occurrences(tg, 'O'))
      && e.teleportersQ == IndexMap(Occurrences(tg, 'Q'))
      && e.switches == (set p | p in Occurrences(tg, 's'))
      && e.movableBlocks == Occurrences(tg, 'B')
  {
    var n := |grid|;
    ScanRowsTele(grid, cols, n, 'O');
    ScanRowsTele(grid, cols, n, 'Q');
    ScanRowsSwitches(grid, cols, n);
    assert ScanRows(grid, cols, n).switches == (set p | p in Occurrences(Truncate(grid, cols), 's'));
    ScanRowsBlocks(grid, cols, n);
  }

  lemma ScanBonusExits(grid: Grid, cols: nat)
    ensures var e, tg := ScanRows(grid, cols, |grid|), Truncate(grid, cols);
      (forall ch :: ch in e.bonusExits <==> IsBonusExit(ch) && Occurrences(tg, ch) != [])
      && (forall ch :: ch in e.bonusExits ==> e.bonusExits[ch] == Occurrences(tg, ch)[|Occurrences(tg, ch)| - 1])
  {
    var n := |grid|;
    var m, tg := ScanRows(grid, cols, n).bonusExits, Truncate(grid, cols);
    ScanRowsLetterKeys(grid, cols, n);
    forall ch
      ensures (ch in m <==> IsBonusExit(ch) && Occurrences(tg, ch) != [])
              && (ch in m ==> m[ch] == Occurrences(tg, ch)[|Occurrences(tg, ch)| - 1])
    {
      if IsBonusExit(ch) {
        ScanRowsLetter(grid, cols, n, ch);
      }
    }
  }

  lemma ScanConditionalDoors(grid: Grid, cols: nat)
    ensures var e, tg := ScanRows(grid, cols, |grid|), Truncate(grid, cols);
      (forall ch :: ch in e.conditionalDoors <==> IsConditionalDoor(ch) && Occurrences(tg, ch) != [])
      && (forall ch :: ch in e.conditionalDoors ==>
            e.conditionalDoors[ch] == Occurrences(tg, ch)[|Occurrences(tg, ch)| - 1])
  {
    var n := |grid|;
    var m, tg := ScanRows(grid, cols, n).conditionalDoors, Truncate(grid, cols);
    ScanRowsLetterKeys(grid, cols, n);
    forall ch
      ensures (ch in m <==> IsConditionalDoor(ch) && Occurrences(tg, ch) != [])
              && (ch in m ==> m[ch] == Occurrences(tg, ch)[|Occurrences(tg, ch)| - 1])
    {
      if IsConditionalDoor(ch) {
        ScanRowsLetter(grid, cols, n, ch);
      }
    }
  }

  /** On a rectangular grid the scan sees every cell: the `k`-th 'O' (or 'Q') in
      row-major order gets number `k`, and every other table is the grid's own. */
  lemma ScanRectangular(grid: Grid)
    requires Rectangular(grid)
    ensures var e := ScanRows(grid, Width(grid), |grid|);
      (forall k :: 0 <= k < |Occurrences(grid, 'O')| ==> Occurrences(grid, 'O')[k] in e.teleportersO && e.teleportersO[Occurrences(grid, 'O')[k]] == k)
      && (forall k :: 0 <= k < |Occurrences(grid, 'Q')| ==> Occurrences(grid, 'Q')[k] in e.teleportersQ && e.teleportersQ[Occurrences(grid, 'Q')[k]] == k)
      && |e.teleportersO| == CountOf(grid, 'O') && |e.teleportersQ| == CountOf(grid, 'Q')
      && e.switches == (set p | p in Occurrences(grid, 's'))
      && e.movableBlocks == Occurrences(grid, 'B')
  {
    TruncateRectangular(grid);
    ScanMatchesOccurrences(grid, Width(grid));
    OccurrencesDistinct(grid, 'O');
    OccurrencesDistinct(grid, 'Q');
    IndexMapAt(Occurrences(grid, 'O'));
    IndexMapAt(Occurrences(grid, 'Q'));
  }

  /** At most three bonus exits and three conditional doors are ever recorded. */
  lemma LetterTablesSmall(grid: Grid, cols: nat)
    ensures |ScanRows(grid, cols, |grid|).bonusExits| <= 3
    ensures |ScanRows(grid, cols, |grid|).conditionalDoors| <= 3
  {
    var e := ScanRows(grid, cols, |grid|);
    ScanRowsLetterKeys(grid, cols, |grid|);
    SubsetCardinality(e.bonusExits.Keys, {'F', 'G', 'H'});
    SubsetCardinality(e.conditionalDoors.Keys, {'X', 'Y', 'Z'});
  }

  /** Matching within a row prefix only looks at that prefix. */
  lemma {:induction false} RowOccurrencesSamePrefix(a: string, b: string, r: int, t: char, n: nat)
    requires n <= |a| && n <= |b| && a[..n] == b[..n]
    ensures RowOccurrences(a, r, t, n) == RowOccurrences(b, r, t, n)
  {
    if n > 0 {
      assert a[..n - 1] == a[..n][..n - 1];
      assert b[..n - 1] == b[..n][..n - 1];
      assert a[n - 1] == a[..n][n - 1];
      assert b[n - 1] == b[..n][n - 1];
      RowOccurrencesSamePrefix(a, b, r, t, n - 1);
    }
  }
}
