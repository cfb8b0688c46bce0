/** Values shared by every stage of the maze evaluator: results with an error
    side, grid positions, the character classes the evaluator tests with
    `'a' <= c <= 'z'` / `'A' <= c <= 'Z'`, and the few Python string
    operations (`strip`, `split('\n')`, `'\n'.join`) the parsers are built on. */
module MazeCommon {

  datatype Option<+T> = None | Some(value: T)

  datatype Result<+T, +E> = Ok(value: T) | Err(error: E)

  /** A (row, column) pair as the Python code builds it with tuples. */
  datatype Pos = Pos(r: int, c: int)

  type Grid = seq<string>

  predicate IsLower(ch: char) { 'a' <= ch <= 'z' }

  predicate IsUpper(ch: char) { 'A' <= ch <= 'Z' }

  /** Python's `str.lower()` on one upper-case ASCII letter. */
  function ToLower(ch: char): (l: char)
    requires IsUpper(ch)
    ensures IsLower(l) && l as int - ch as int == 32
  {
    (ch as int + 32) as char
  }

  /** The four neighbour offsets, in the order every search in the evaluator tries them. */
  const Directions: seq<Pos> := [Pos(-1, 0), Pos(1, 0), Pos(0, -1), Pos(0, 1)]

  function Shift(p: Pos, d: Pos): Pos { Pos(p.r + d.r, p.c + d.c) }

  function Abs(x: int): nat { if x < 0 then -x else x }

  function Manhattan(p: Pos, q: Pos): nat { Abs(p.r - q.r) + Abs(p.c - q.c) }

  predicate Adjacent(p: Pos, q: Pos) { Manhattan(p, q) == 1 }

  lemma DirectionsAreAdjacent(p: Pos, d: nat)
    requires d < 4
    ensures Adjacent(p, Shift(p, Directions[d]))
  {
  }

  /** Strict row-major order of grid cells. */
  predicate Before(p: Pos, q: Pos) { p.r < q.r || (p.r == q.r && p.c < q.c) }

  /** `0 <= r < len(grid) and 0 <= c < len(grid[r])`. */
  predicate InGrid(grid: Grid, p: Pos) { 0 <= p.r < |grid| && 0 <= p.c < |grid[p.r]| }

  function Min(a: int, b: int): int { if a <= b then a else b }

  function Max(a: int, b: int): int { if a >= b then a else b }

  /** The characters Python's `str.isspace()` accepts. */
  predicate IsSpace(ch: char)
  {
    ch == ' ' || ('\t' <= ch <= '\r') || ('\U{1c}' <= ch <= '\U{1f}') || ch == '\U{85}' || ch == '\U{a0}'
    || ch == '\U{1680}' || ('\U{2000}' <= ch <= '\U{200a}') || ch == '\U{2028}' || ch == '\U{2029}'
    || ch == '\U{202f}' || ch == '\U{205f}' || ch == '\U{3000}'
  }

  predicate AllSpace(s: string) { forall i :: 0 <= i < |s| ==> IsSpace(s[i]) }

  /** `s.lstrip()`. */
  function TrimStart(s: string): string
  {
    if s == [] || !IsSpace(s[0]) then s else TrimStart(s[1..])
  }

  /** `s.rstrip()`. */
  function TrimEnd(s: string): string
  {
    if s == [] || !IsSpace(s[|s| - 1]) then s else TrimEnd(s[..|s| - 1])
  }

  /** `lstrip()` removes a white-space prefix and leaves a non-blank start. */
  lemma {:induction false} TrimStartSpec(s: string)
    ensures var t := TrimStart(s);
            |t| <= |s| && t == s[|s| - |t|..] && AllSpace(s[..|s| - |t|])
            && (t == [] || !IsSpace(t[0]))
  {
    if s != [] && IsSpace(s[0]) {
      var rest := s[1..];
      TrimStartSpec(rest);
      var t := TrimStart(rest);
      assert TrimStart(s) == t;
      var k := |s| - |t|;
      assert rest[|rest| - |t|..] == s[k..];
      forall i | 0 <= i < k ensures IsSpace(s[..k][i]) {
        if i > 0 {
          assert s[..k][i] == rest[..|rest| - |t|][i - 1];
        }
      }
    }
  }

  /** `rstrip()` removes a white-space suffix and leaves a non-blank end. */
  lemma {:induction false} TrimEndSpec(s: string)
    ensures var t := TrimEnd(s);
            |t| <= |s| && t == s[..|t|] && AllSpace(s[|t|..])
            && (t == [] || !IsSpace(t[|t| - 1]))
  {
    if s != [] && IsSpace(s[|s| - 1]) {
      TrimEndSpec(s[..|s| - 1]);
      var t := TrimEnd(s);
      assert s[|t|..] == s[..|s| - 1][|t|..] + [s[|s| - 1]];
    }
  }

  /** Python's `str.strip()`. */
  function Strip(s: string): string
  {
    TrimEnd(TrimStart(s))
  }

  /** `strip()` keeps a middle slice whose ends are not white space and removes
      only white space on either side of it. */
  lemma StripSpec(s: string)
    ensures var t := Strip(s);
            (t == [] || (!IsSpace(t[0]) && !IsSpace(t[|t| - 1])))
            && exists i :: 0 <= i <= |s| - |t| && t == s[i..i + |t|]
                           && AllSpace(s[..i]) && AllSpace(s[i + |t|..])
  {
    var a := TrimStart(s);
    var t := TrimEnd(a);
    TrimStartSpec(s);
    TrimEndSpec(a);
    var i := |s| - |a|;
    assert t == [] || t[0] == a[0];
    assert t == s[i..i + |t|];
    assert s[i + |t|..] == a[|t|..];
  }

  lemma StripEmptyIffAllSpace(s: string)
    ensures Strip(s) == [] <==> AllSpace(s)
  {
    var a := TrimStart(s);
    TrimStartSpec(s);
    TrimEndSpec(a);
    var t := TrimEnd(a);
    var i := |s| - |a|;
    if t == [] {
      assert a[|t|..] == a;
      assert a == [];
      assert s[..i] == s;
    } else {
      assert t[0] == a[0] == s[i];
    }
  }

  /** A string whose ends are not white space is its own `strip()`. */
  lemma StripOfStripped(s: string)
    requires s == [] || (!IsSpace(s[0]) && !IsSpace(s[|s| - 1]))
    ensures Strip(s) == s
  {
  }

  predicate StartsWith(s: string, prefix: string) { |prefix| <= |s| && s[..|prefix|] == prefix }

  function IndexOf(s: string, ch: char): (i: nat)
    requires ch in s
    ensures i < |s| && s[i] == ch && ch !in s[..i]
  {
    if s[0] == ch then 0 else 1 + IndexOf(s[1..], ch)
  }

  /** Python's `s.split('\n')`: never empty. */
  function SplitLines(s: string): (lines: seq<string>)
    ensures |lines| >= 1
    decreases |s|
  {
    if '\n' !in s then [s]
    else
      var i := IndexOf(s, '\n');
      [s[..i]] + SplitLines(s[i + 1..])
  }

  /** No piece of `s.split('\n')` holds a newline. */
  lemma {:induction false} SplitLinesNoNewline(s: string)
    ensures forall k :: 0 <= k < |SplitLines(s)| ==> '\n' !in SplitLines(s)[k]
    decreases |s|
  {
    if '\n' in s {
      var i := IndexOf(s, '\n');
      SplitLinesNoNewline(s[i + 1..]);
    }
  }

  /** Python's `'\n'.join(lines)`. */
  function JoinLines(lines: seq<string>): string
  {
    if lines == [] then ""
    else if |lines| == 1 then lines[0]
    else lines[0] + "\n" + JoinLines(lines[1..])
  }

  lemma JoinCons(head: string, tail: seq<string>)
    requires tail != []
    ensures JoinLines([head] + tail) == head + "\n" + JoinLines(tail)
  {
    assert ([head] + tail)[1..] == tail;
  }

  /** Cutting a string around one of its characters. */
  lemma CutAt(s: string, i: nat)
    requires i < |s|
    ensures s == s[..i] + [s[i]] + s[i + 1..]
  {
  }

  lemma {:induction false} JoinSplit(s: string)
    ensures JoinLines(SplitLines(s)) == s
    decreases |s|
  {
    if '\n' in s {
      var i := IndexOf(s, '\n');
      var rest := s[i + 1..];
      JoinSplit(rest);
      assert SplitLines(s) == [s[..i]] + SplitLines(rest);
      JoinCons(s[..i], SplitLines(rest));
      CutAt(s, i);
    }
  }

  lemma {:induction false} SplitJoin(lines: seq<string>)
    requires lines != []
    requires forall k :: 0 <= k < |lines| ==> '\n' !in lines[k]
    ensures SplitLines(JoinLines(lines)) == lines
  {
    if |lines| > 1 {
      SplitJoin(lines[1..]);
      SplitJoinStep(lines);
    } else {
      assert JoinLines(lines) == lines[0];
      assert [lines[0]] == lines;
    }
  }

  lemma SplitJoinStep(lines: seq<string>)
    requires |lines| > 1 && '\n' !in lines[0]
    requires SplitLines(JoinLines(lines[1..])) == lines[1..]
    ensures SplitLines(JoinLines(lines)) == lines
  {
    JoinHead(lines);
    assert SplitLines(JoinLines(lines)) == [lines[0]] + SplitLines(JoinLines(lines[1..]));
    assert [lines[0]] + lines[1..] == lines;
  }

  /** The first line break of the joined text ends the first line. */
  lemma JoinHead(lines: seq<string>)
    requires |lines| > 1 && '\n' !in lines[0]
    ensures var s := JoinLines(lines);
      '\n' in s && IndexOf(s, '\n') == |lines[0]|
      && s[..|lines[0]|] == lines[0] && s[|lines[0]| + 1..] == JoinLines(lines[1..])
  {
    var s := JoinLines(lines);
    assert s == lines[0] + "\n" + JoinLines(lines[1..]);
    assert s[|lines[0]|] == '\n';
    assert s[..|lines[0]|] == lines[0];
    assert IndexOf(s, '\n') == |lines[0]|;
    assert s[|lines[0]| + 1..] == JoinLines(lines[1..]);
  }

  /** The members of a sequence. */
  function Elems<T>(q: seq<T>): set<T>
  {
    set x | x in q
  }

  lemma ConcatAssoc<T>(a: seq<T>, b: seq<T>, c: seq<T>)
    ensures (a + b) + c == a + (b + c)
  {
  }

  lemma MulMonotone(a: nat, b: nat, c: nat, d: nat)
    requires a <= b && c <= d
    ensures a * c <= b * d
  {
    assert a * c <= b * c;
  }
}
