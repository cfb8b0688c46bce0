/** The strategic breadth-first search: states carry the keys held, the switches
    pressed and the teleporters already used; moves are steps, teleports from an
    unused 'O' to its 'Q', and pushes of a 'B' into an empty cell. */
module Pathfinding {
  import opened MazeCommon
  import opened MazeModel

  datatype SearchState = SearchState(pos: Pos, keys: set<char>, switches: set<Pos>, usedTeles: set<Pos>)

  function InitialState(start: Pos): SearchState { SearchState(start, {}, {}, {}) }

  datatype MoveKind = Walk | Teleport | Push

  /** A successor state together with the cells appended to the path to reach it. */
  datatype Move = Move(kind: MoveKind, next: SearchState, steps: seq<Pos>)

  datatype Usage = Usage(teleports: nat, switchesActivated: nat, blocksMoved: nat)

  datatype SolveResult = SolveResult(
    solvable: bool,
    path: seq<Pos>,
    keysCollected: set<char>,
    chainLength: nat,
    switchesActivated: set<Pos>,
    teleportersUsed: set<Pos>,
    usage: Usage,
    timeout: bool)

  /** Upper-case letters that are not key doors. */
  const NotDoors: set<char> := {'S', 'E', 'T', 'K', 'D', 'O', 'Q', 'F', 'G', 'H', 'X', 'Y', 'Z'}

  /** An upper-case letter opened by its lower-case key; note that this includes 'B'. */
  predicate IsPlainDoor(ch: char) { IsUpper(ch) && ch !in NotDoors }

  /** `_is_valid_move`: in bounds and not a wall; a key door needs its key; 'X' needs
      two keys, 'Y' a pressed switch, 'Z' a key and a pressed switch. */
  predicate IsValidMove(maze: StrategicMaze, p: Pos, keys: set<char>, switches: set<Pos>): (r: bool)
    ensures var ch := maze.GetCell(p);
      r <==>
        (InGrid(maze.grid, p) && ch != '#'
         && (IsPlainDoor(ch) ==> ToLower(ch) in keys)
         && (ch == 'X' ==> |keys| >= 2)
         && (ch == 'Y' ==> switches != {})
         && (ch == 'Z' ==> keys != {} && switches != {}))
  {
    if !maze.IsTraversable(p) then false
    else
      var ch := maze.GetCell(p);
      if ch == '#' then false
      else if IsPlainDoor(ch) then ToLower(ch) in keys
      else if ch == 'X' then |keys| >= 2
      else if ch == 'Y' then switches != {}
      else if ch == 'Z' then |keys| >= 1 && switches != {}
      else true
  }

  /** The keys a popped state passes on: its own plus the key under it. */
  function NewKeys(maze: StrategicMaze, s: SearchState): set<char>
  {
    var ch := maze.GetCell(s.pos);
    if IsLower(ch) then s.keys + {ch} else s.keys
  }

  /** The switches a popped state passes on: its own plus the switch under it. */
  function NewSwitches(maze: StrategicMaze, s: SearchState): set<Pos>
  {
    if maze.GetCell(s.pos) == 's' then s.switches + {s.pos} else s.switches
  }

  // ---------------------------------------------------------------------
  // The successor relation, candidate by candidate in the order the search tries them.

  ghost function WalkOption(maze: StrategicMaze, cur: Pos, keys: set<char>, sw: set<Pos>, used: set<Pos>, d: nat): seq<Move>
    requires d < 4
  {
    var next := Shift(cur, Directions[d]);
    if IsValidMove(maze, next, keys, sw) then [Move(Walk, SearchState(next, keys, sw, used), [next])] else []
  }

  ghost function WalkFrom(maze: StrategicMaze, cur: Pos, keys: set<char>, sw: set<Pos>, used: set<Pos>, d: nat): seq<Move>
    requires d <= 4
  {
    if d == 0 then [] else WalkFrom(maze, cur, keys, sw, used, d - 1) + WalkOption(maze, cur, keys, sw, used, d - 1)
  }

  ghost function Pick(ds: set<Pos>): Pos
    requires ds != {}
  {
    var d :| d in ds; d
  }

  ghost function TeleportOption(maze: StrategicMaze, cur: Pos, keys: set<char>, sw: set<Pos>, used: set<Pos>): seq<Move>
  {
    var ds := maze.TeleportDestinations(cur);
    if maze.GetCell(cur) != 'O' || cur in used || ds == {} then []
    else
      var dest := Pick(ds);
      if maze.IsTraversable(dest) then [Move(Teleport, SearchState(dest, keys, sw, used + {cur}), [dest])] else []
  }

  ghost function PushOption(maze: StrategicMaze, cur: Pos, keys: set<char>, sw: set<Pos>, used: set<Pos>, d: nat): seq<Move>
    requires d < 4
  {
    var push := Shift(cur, Directions[d]);
    var land := Shift(push, Directions[d]);
    if maze.GetCell(cur) == 'B' && maze.GetCell(push) == ' ' && maze.IsTraversable(land) && maze.GetCell(land) != '#'
    then [Move(Push, SearchState(land, keys, sw, used), [push, land])]
    else []
  }

  ghost function PushFrom(maze: StrategicMaze, cur: Pos, keys: set<char>, sw: set<Pos>, used: set<Pos>, d: nat): seq<Move>
    requires d <= 4
  {
    if d == 0 then [] else PushFrom(maze, cur, keys, sw, used, d - 1) + PushOption(maze, cur, keys, sw, used, d - 1)
  }

  ghost function Candidates(maze: StrategicMaze, cur: Pos, keys: set<char>, sw: set<Pos>, used: set<Pos>): seq<Move>
  {
    WalkFrom(maze, cur, keys, sw, used, 4) + TeleportOption(maze, cur, keys, sw, used) + PushFrom(maze, cur, keys, sw, used, 4)
  }

  /** Every successor of a popped state, in the order the search enqueues them. */
  ghost function Moves(maze: StrategicMaze, s: SearchState): seq<Move>
  {
    Candidates(maze, s.pos, NewKeys(maze, s), NewSwitches(maze, s), s.usedTeles)
  }

  ghost function StatesOf(ms: seq<Move>): set<SearchState> { set m | m in ms :: m.next }

  /** The candidates a search admits: those whose state is neither visited before
      nor produced by an earlier candidate. */
  ghost function Admit(v: set<SearchState>, ms: seq<Move>): seq<Move>
  {
    if ms == [] then []
    else
      var init, m := ms[..|ms| - 1], ms[|ms| - 1];
      Admit(v, init) + (if m.next in v || m.next in StatesOf(init) then [] else [m])
  }

  ghost function Entries(adm: seq<Move>, path: seq<Pos>): seq<(SearchState, seq<Pos>)>
  {
    seq(|adm|, k requires 0 <= k < |adm| => (adm[k].next, path + adm[k].steps))
  }

  ghost function NextStates(adm: seq<Move>): seq<SearchState>
  {
    seq(|adm|, k requires 0 <= k < |adm| => adm[k].next)
  }

  ghost function CountKind(ms: seq<Move>, kind: MoveKind): nat
  {
    if ms == [] then 0 else CountKind(ms[..|ms| - 1], kind) + (if ms[|ms| - 1].kind == kind then 1 else 0)
  }

  ghost predicate NoDup(h: seq<SearchState>) { forall a, b :: 0 <= a < b < |h| ==> h[a] != h[b] }

  /** The part of the search an exploration changes. */
  datatype Frontier = Frontier(queue: seq<(SearchState, seq<Pos>)>, visited: set<SearchState>,
                               history: seq<SearchState>, usage: Usage)

  /** Trying one candidate: a push always counts as a block move; a new state is
      marked visited and enqueued with its path, and a new teleport is counted. */
  ghost function Step(f: Frontier, m: Move, path: seq<Pos>): Frontier
  {
    var u := if m.kind == Push then f.usage.(blocksMoved := f.usage.blocksMoved + 1) else f.usage;
    if m.next in f.visited then f.(usage := u)
    else Frontier(f.queue + [(m.next, path + m.steps)], f.visited + {m.next}, f.history + [m.next],
                  if m.kind == Teleport then u.(teleports := u.teleports + 1) else u)
  }

  /** Trying the candidates `ms` one by one from `f0`. */
  ghost function After(f0: Frontier, ms: seq<Move>, path: seq<Pos>): Frontier
  {
    if ms == [] then f0 else Step(After(f0, ms[..|ms| - 1], path), ms[|ms| - 1], path)
  }

  lemma AfterSnoc(f0: Frontier, ms: seq<Move>, m: Move, path: seq<Pos>)
    ensures After(f0, ms + [m], path) == Step(After(f0, ms, path), m, path)
  {
    assert (ms + [m])[..|ms|] == ms;
  }

  // ---------------------------------------------------------------------
  // Paths.

  /** One path step: a neighbour, or the jump from an 'O' to its destination. */
  predicate StepOK(maze: StrategicMaze, a: Pos, b: Pos)
  {
    Adjacent(a, b) || (maze.GetCell(a) == 'O' && b in maze.TeleportDestinations(a))
  }

  predicate StepsOK(maze: StrategicMaze, path: seq<Pos>)
  {
    forall i :: 0 <= i < |path| - 1 ==> StepOK(maze, path[i], path[i + 1])
  }

  /** A path from `start` to `end` made of neighbour and teleport steps. */
  predicate IsRoute(maze: StrategicMaze, start: Pos, end: Pos, path: seq<Pos>)
  {
    |path| >= 1 && path[0] == start && path[|path| - 1] == end && StepsOK(maze, path)
  }

  /** The keys lying on the cells of `ps`. */
  function KeysOn(maze: StrategicMaze, ps: seq<Pos>): set<char>
  {
    if ps == [] then {}
    else
      var ch := maze.GetCell(ps[|ps| - 1]);
      KeysOn(maze, ps[..|ps| - 1]) + (if IsLower(ch) then {ch} else {})
  }

  /** The switch cells among `ps`. */
  function SwitchesOn(maze: StrategicMaze, ps: seq<Pos>): set<Pos>
  {
    if ps == [] then {}
    else SwitchesOn(maze, ps[..|ps| - 1]) + (if maze.GetCell(ps[|ps| - 1]) == 's' then {ps[|ps| - 1]} else {})
  }

  // ---------------------------------------------------------------------
  // Runs of moves: what the search can reach, and how.

  /** The state the moves `ms` reach from `s0`. */
  ghost function RunEnd(s0: SearchState, ms: seq<Move>): SearchState
  {
    if ms == [] then s0 else ms[|ms| - 1].next
  }

  /** Each move of `ms` is a successor of the state the moves before it reach. */
  ghost predicate IsRun(maze: StrategicMaze, s0: SearchState, ms: seq<Move>)
    decreases |ms|
  {
    ms == [] || (IsRun(maze, s0, ms[..|ms| - 1]) && ms[|ms| - 1] in Moves(maze, RunEnd(s0, ms[..|ms| - 1])))
  }

  /** The cells the moves `ms` append to a path, in order. */
  ghost function RunSteps(ms: seq<Move>): seq<Pos>
  {
    if ms == [] then [] else RunSteps(ms[..|ms| - 1]) + ms[|ms| - 1].steps
  }

  /** Some run of moves from the initial state reaches `s`. */
  ghost predicate Reachable(maze: StrategicMaze, start: Pos, s: SearchState)
  {
    exists ms :: IsRun(maze, InitialState(start), ms) && RunEnd(InitialState(start), ms) == s
  }

  /** `path` is the start cell followed by the cells of a run of moves from the
      initial state to `s`. */
  ghost predicate Derived(maze: StrategicMaze, start: Pos, s: SearchState, path: seq<Pos>)
  {
    exists ms :: IsRun(maze, InitialState(start), ms) && RunEnd(InitialState(start), ms) == s
                 && path == [start] + RunSteps(ms)
  }

  /** `path` is the start cell followed by the cells of a run of moves from the
      initial state that ends on `end`. */
  ghost predicate MoveRoute(maze: StrategicMaze, start: Pos, end: Pos, path: seq<Pos>)
  {
    exists ms :: IsRun(maze, InitialState(start), ms) && RunEnd(InitialState(start), ms).pos == end
                 && path == [start] + RunSteps(ms)
  }

  /** Some run of moves from the initial state stands on `end`. */
  ghost predicate EndReachable(maze: StrategicMaze, start: Pos, end: Pos)
  {
    exists ms :: IsRun(maze, InitialState(start), ms) && RunEnd(InitialState(start), ms).pos == end
  }

  /** At least `n` distinct states are reachable. */
  ghost predicate ManyReachable(maze: StrategicMaze, start: Pos, n: nat)
  {
    exists h: seq<SearchState> :: |h| >= n && NoDup(h) && forall k :: 0 <= k < |h| ==> Reachable(maze, start, h[k])
  }

  /** What a search that did not time out reports, in terms of the maze alone. A solved
      path is a run of moves from the start to `end`, the keys are those on the path
      before `end` and the chain counts the door letters on the path they open. An
      unsolved search reports nothing, and either `end` is unreachable or at least `cap`
      distinct states are reachable. */
  ghost predicate Outcome(maze: StrategicMaze, start: Pos, end: Pos, cap: nat, solvable: bool, path: seq<Pos>,
                          keys: set<char>, chainLength: nat)
  {
    if solvable then
      IsRoute(maze, start, end, path) && MoveRoute(maze, start, end, path)
      && keys == KeysOn(maze, path[..|path| - 1]) && chainLength == |UnlockedDoors(maze, path, keys)|
    else
      path == [] && keys == {} && chainLength == 0
      && (!EndReachable(maze, start, end) || ManyReachable(maze, start, cap))
  }

  /** A queue entry: its path runs from the start to the state's cell by a run of moves,
      and the state holds exactly the keys and switches on the path before that cell. */
  ghost predicate EntryOK(maze: StrategicMaze, start: Pos, e: (SearchState, seq<Pos>))
  {
    var s, path := e.0, e.1;
    |path| >= 1 && path[0] == start && path[|path| - 1] == s.pos && StepsOK(maze, path)
    && s.keys == KeysOn(maze, path[..|path| - 1]) && s.switches == SwitchesOn(maze, path[..|path| - 1])
    && Derived(maze, start, s, path)
  }

  /** Every state ever enqueued is reachable. */
  /** The clock check before each of the first `n` pops said the time was not up. */
  ghost predicate ClockQuiet(timeUp: nat -> bool, n: nat)
  {
    forall k :: 0 <= k < n ==> !timeUp(k)
  }

  lemma ClockStep(timeUp: nat -> bool, n: nat)
    requires ClockQuiet(timeUp, n) && !timeUp(n)
    ensures ClockQuiet(timeUp, n + 1)
  {
  }

  ghost predicate ReachInv(maze: StrategicMaze, start: Pos, history: seq<SearchState>)
  {
    forall k :: 0 <= k < |history| ==> Reachable(maze, start, history[k])
  }

  /** The queue holds the history's unpopped suffix, each with a good path. */
  ghost predicate QueueInv(maze: StrategicMaze, start: Pos, queue: seq<(SearchState, seq<Pos>)>,
                           history: seq<SearchState>, popped: nat)
  {
    popped <= |history| && |queue| == |history| - popped
    && forall k :: 0 <= k < |queue| ==> queue[k].0 == history[popped + k] && EntryOK(maze, start, queue[k])
  }

  /** The visited set is the set of enqueued states, each enqueued once. */
  ghost predicate VisitedInv(visited: set<SearchState>, history: seq<SearchState>)
  {
    (forall st :: st in visited <==> st in history) && NoDup(history)
  }

  /** Every popped state is off the end and has all its successors visited. */
  ghost predicate ClosedInv(maze: StrategicMaze, end: Pos, visited: set<SearchState>, history: seq<SearchState>, popped: nat)
  {
    popped <= |history|
    && forall k :: 0 <= k < popped ==> history[k].pos != end && StatesOf(Moves(maze, history[k])) <= visited
  }

  /** What holds between iterations of the search loop, over `history`, the list of
      every state ever enqueued, whose first `popped` entries have been popped. */
  ghost predicate SearchInv(maze: StrategicMaze, start: Pos, end: Pos, queue: seq<(SearchState, seq<Pos>)>,
                            visited: set<SearchState>, history: seq<SearchState>, popped: nat)
  {
    |history| >= 1 && history[0] == InitialState(start)
    && QueueInv(maze, start, queue, history, popped)
    && VisitedInv(visited, history)
    && ClosedInv(maze, end, visited, history, popped)
    && ReachInv(maze, start, history)
  }

  // ---------------------------------------------------------------------
  // The end-of-search summary.

  /** The key doors on `ps`. */
  function DoorsOn(maze: StrategicMaze, ps: seq<Pos>): set<char>
  {
    if ps == [] then {}
    else
      var ch := maze.GetCell(ps[|ps| - 1]);
      DoorsOn(maze, ps[..|ps| - 1]) + (if IsPlainDoor(ch) then {ch} else {})
  }

  /** The distinct key doors on `path` whose key is in `keys`. */
  function UnlockedDoors(maze: StrategicMaze, path: seq<Pos>, keys: set<char>): set<char>
  {
    set ch | ch in DoorsOn(maze, path) && IsUpper(ch) && ToLower(ch) in keys
  }

  /** How many cells of `path` are teleporter origins that were used. */
  function UsedTeleportCells(maze: StrategicMaze, path: seq<Pos>, used: set<Pos>): nat
  {
    if path == [] then 0
    else
      var p := path[|path| - 1];
      UsedTeleportCells(maze, path[..|path| - 1], used) + (if maze.GetCell(p) == 'O' && p in used then 1 else 0)
  }

  class StrategicPathfinder {
    const maze: StrategicMaze
    const rows: nat
    const cols: nat
    /** The search frontier: states with the path that reached them. */
    var queue: seq<(SearchState, seq<Pos>)>
    var visited: set<SearchState>
    /** Every state ever enqueued, in order. */
    ghost var history: seq<SearchState>
    var usage: Usage
    var iterations: nat

    constructor(maze: StrategicMaze)
      ensures this.maze == maze && rows == maze.rows && cols == maze.cols
    {
      this.maze := maze;
      rows := maze.rows;
      cols := maze.cols;
    }

    /** `_queue_state`: enqueue the state unless it was visited. */
    method QueueState(r: int, c: int, keys: set<char>, switches: set<Pos>, usedTeles: set<Pos>, path: seq<Pos>)
      modifies this
      ensures var st := SearchState(Pos(r, c), keys, switches, usedTeles);
        if st in old(visited) then
          queue == old(queue) && visited == old(visited) && history == old(history)
        else
          queue == old(queue) + [(st, path + [Pos(r, c)])] && visited == old(visited) + {st}
          && history == old(history) + [st]
      ensures usage == old(usage) && iterations == old(iterations)
    {
      var st := SearchState(Pos(r, c), keys, switches, usedTeles);
      if st !in visited {
        visited := visited + {st};
        queue := queue + [(st, path + [Pos(r, c)])];
        history := history + [st];
      }
    }

    ghost function Snapshot(): Frontier
      reads this
    {
      Frontier(queue, visited, history, usage)
    }

    /** `_explore_possible_moves`: the four steps, then the teleport, then the four pushes. */
    method ExplorePossibleMoves(cur: Pos, keys: set<char>, switches: set<Pos>, usedTeles: set<Pos>, path: seq<Pos>)
      requires maze.Valid()
      modifies this
      ensures var ms, adm := Candidates(maze, cur, keys, switches, usedTeles), Admit(old(visited), Candidates(maze, cur, keys, switches, usedTeles));
        queue == old(queue) + Entries(adm, path) && visited == old(visited) + StatesOf(ms)
        && history == old(history) + NextStates(adm)
        && usage == old(usage).(teleports := old(usage).teleports + CountKind(adm, Teleport),
                                blocksMoved := old(usage).blocksMoved + CountKind(ms, Push))
      ensures iterations == old(iterations)
    {
      ghost var f0 := Snapshot();
      ghost var walks := WalkFrom(maze, cur, keys, switches, usedTeles, 4);
      ghost var hops := walks + TeleportOption(maze, cur, keys, switches, usedTeles);
      ExploreWalks(cur, keys, switches, usedTeles, path, f0);
      ExploreTeleport(cur, keys, switches, usedTeles, path, f0, walks);
      ExplorePushes(cur, keys, switches, usedTeles, path, f0, hops);
      AfterVisited(f0, Candidates(maze, cur, keys, switches, usedTeles), path);
      AfterAdmits(f0, Candidates(maze, cur, keys, switches, usedTeles), path);
    }

    /** The four steps. */
    method ExploreWalks(cur: Pos, keys: set<char>, switches: set<Pos>, usedTeles: set<Pos>, path: seq<Pos>,
                        ghost f0: Frontier)
      requires Snapshot() == f0
      modifies this
      ensures Snapshot() == After(f0, WalkFrom(maze, cur, keys, switches, usedTeles, 4), path)
      ensures iterations == old(iterations)
    {
      for d := 0 to 4
        invariant Snapshot() == After(f0, WalkFrom(maze, cur, keys, switches, usedTeles, d), path)
        invariant iterations == old(iterations)
      {
        TryWalk(cur, d, keys, switches, usedTeles, path, f0, WalkFrom(maze, cur, keys, switches, usedTeles, d));
      }
    }

    /** One step, onto a cell the move rules allow. */
    method TryWalk(cur: Pos, d: nat, keys: set<char>, switches: set<Pos>, usedTeles: set<Pos>, path: seq<Pos>,
                   ghost f0: Frontier, ghost cands: seq<Move>)
      requires d < 4 && Snapshot() == After(f0, cands, path)
      modifies this
      ensures Snapshot() == After(f0, cands + WalkOption(maze, cur, keys, switches, usedTeles, d), path)
      ensures iterations == old(iterations)
    {
      var next := Shift(cur, Directions[d]);
      if IsValidMove(maze, next, keys, switches) {
        ghost var f1 := Snapshot();
        ghost var m := Move(Walk, SearchState(next, keys, switches, usedTeles), [next]);
        AfterSnoc(f0, cands, m, path);
        QueueState(next.r, next.c, keys, switches, usedTeles, path);
        assert Snapshot() == Step(f1, m, path);
      } else {
        assert cands + [] == cands;
      }
    }

    /** The teleport from an unused 'O' to its destination. */
    method ExploreTeleport(cur: Pos, keys: set<char>, switches: set<Pos>, usedTeles: set<Pos>, path: seq<Pos>,
                           ghost f0: Frontier, ghost before: seq<Move>)
      requires maze.Valid()
      requires Snapshot() == After(f0, before, path)
      modifies this
      ensures Snapshot() == After(f0, before + TeleportOption(maze, cur, keys, switches, usedTeles), path)
      ensures iterations == old(iterations)
    {
      assert before + [] == before;
      if maze.GetCell(cur) == 'O' && cur !in usedTeles {
        var ds := maze.TeleportDestinations(cur);
        if ds != {} {
          var dest :| dest in ds;
          maze.TeleportDestinationsAtMostOne(cur);
          OnlyElement(ds, dest, Pick(ds));
          if maze.IsTraversable(dest) {
            var st := SearchState(dest, keys, switches, usedTeles + {cur});
            AfterSnoc(f0, before, Move(Teleport, st, [dest]), path);
            if st !in visited {
              visited := visited + {st};
              queue := queue + [(st, path + [dest])];
              history := history + [st];
              usage := usage.(teleports := usage.teleports + 1);
            }
          }
        }
      }
    }

    /** The four pushes off a block. */
    method ExplorePushes(cur: Pos, keys: set<char>, switches: set<Pos>, usedTeles: set<Pos>, path: seq<Pos>,
                         ghost f0: Frontier, ghost before: seq<Move>)
      requires Snapshot() == After(f0, before, path)
      modifies this
      ensures Snapshot() == After(f0, before + PushFrom(maze, cur, keys, switches, usedTeles, 4), path)
      ensures iterations == old(iterations)
    {
      if maze.GetCell(cur) == 'B' {
        assert before + PushFrom(maze, cur, keys, switches, usedTeles, 0) == before;
        for d := 0 to 4
          invariant Snapshot() == After(f0, before + PushFrom(maze, cur, keys, switches, usedTeles, d), path)
          invariant iterations == old(iterations)
        {
          PushFromSnoc(maze, cur, keys, switches, usedTeles, d, before);
          TryPush(cur, Directions[d], keys, switches, usedTeles, path, f0, before + PushFrom(maze, cur, keys, switches, usedTeles, d));
        }
      } else {
        NoPushesOffBlocks(maze, cur, keys, switches, usedTeles, 4);
        assert before + PushFrom(maze, cur, keys, switches, usedTeles, 4) == before;
      }
    }

    /** Takes a push: the block counter rises, and the landing state is queued with the
        two cells of the push unless it was visited. */
    method PushMove(m: Move, path: seq<Pos>)
      requires m.kind == Push
      modifies this
      ensures Snapshot() == Step(old(Snapshot()), m, path)
      ensures iterations == old(iterations)
    {
      usage := usage.(blocksMoved := usage.blocksMoved + 1);
      if m.next !in visited {
        visited := visited + {m.next};
        queue := queue + [(m.next, path + m.steps)];
        history := history + [m.next];
      }
    }

    /** One push: into an empty cell, landing on a traversable non-wall cell. */
    method TryPush(cur: Pos, dir: Pos, keys: set<char>, switches: set<Pos>, usedTeles: set<Pos>, path: seq<Pos>,
                   ghost f0: Frontier, ghost cands: seq<Move>)
      requires Snapshot() == After(f0, cands, path)
      modifies this
      ensures var push, land := Shift(cur, dir), Shift(Shift(cur, dir), dir);
        Snapshot() == After(f0, cands + (
          if maze.GetCell(push) == ' ' && maze.IsTraversable(land) && maze.GetCell(land) != '#'
          then [Move(Push, SearchState(land, keys, switches, usedTeles), [push, land])] else []), path)
      ensures iterations == old(iterations)
    {
      var push := Shift(cur, dir);
      var land := Shift(push, dir);
      if maze.GetCell(push) == ' ' && maze.IsTraversable(land) && maze.GetCell(land) != '#' {
        var m := Move(Push, SearchState(land, keys, switches, usedTeles), [push, land]);
        AfterSnoc(f0, cands, m, path);
        PushMove(m, path);
      } else {
        assert cands + [] == cands;
      }
    }

    /** `solve_with_strategic_elements`, with the wall clock replaced by `timeUp`,
        which is asked before each pop how many pops have happened. */
    method Solve(start: Pos, end: Pos, timeUp: nat -> bool) returns (res: SolveResult)
      requires maze.Valid()
      modifies this
      ensures iterations <= rows * cols * 20
      ensures res.timeout ==> !res.solvable && res.path == [] && res.chainLength == 0 && res.keysCollected == {}
      ensures !res.solvable ==> res.path == [] && res.chainLength == 0 && res.keysCollected == {}
      ensures !res.timeout ==>
        Outcome(maze, start, end, rows * cols * 20, res.solvable, res.path, res.keysCollected, res.chainLength)
      ensures res.solvable ==>
        !res.timeout && |res.path| >= 1 && res.switchesActivated == SwitchesOn(maze, res.path[..|res.path| - 1])
      ensures !res.solvable && !res.timeout && iterations < rows * cols * 20 ==> !EndReachable(maze, start, end)
      ensures ClockQuiet(timeUp, iterations)
      ensures res.timeout ==> iterations < rows * cols * 20 && timeUp(iterations)
      ensures NoDup(history) && forall st :: st in visited <==> st in history
    {
      var maxIter := rows * cols * 20;
      var solved, timedOut, found := Search(start, end, timeUp);
      if timedOut {
        res := SolveResult(false, [], {}, 0, {}, {}, usage, true);
      } else if solved {
        var pairs, teleportsOnPath := SummarizePath(found.1, found.0.keys, found.0.usedTeles);
        DerivedRoute(maze, start, found.0, found.1);
        usage := usage.(teleports := usage.teleports + teleportsOnPath);
        res := SolveResult(true, found.1, found.0.keys, pairs, found.0.switches, found.0.usedTeles, usage, false);
      } else {
        res := SolveResult(false, [], {}, 0, {}, {}, usage, false);
      }
    }

    /** The search loop: pops the front entry until it reaches `end`, the queue runs
        dry, the iteration cap is hit or `timeUp` says the time is over. */
    method Search(start: Pos, end: Pos, timeUp: nat -> bool) returns (solved: bool, timedOut: bool, found: (SearchState, seq<Pos>))
      requires maze.Valid()
      modifies this
      ensures iterations <= rows * cols * 20 && VisitedInv(visited, history)
      ensures solved ==> !timedOut && EntryOK(maze, start, found) && found.0.pos == end
      ensures !solved && !timedOut ==>
        !EndReachable(maze, start, end) || ManyReachable(maze, start, rows * cols * 20)
      ensures !solved && !timedOut && iterations < rows * cols * 20 ==> !EndReachable(maze, start, end)
      ensures ClockQuiet(timeUp, iterations)
      ensures timedOut ==> !solved && iterations < rows * cols * 20 && timeUp(iterations)
    {
      var initial := InitialState(start);
      queue := [(initial, [start])];
      visited := {initial};
      history := [initial];
      usage := Usage(0, 0, 0);
      iterations := 0;
      var maxIter := rows * cols * 20;
      solved, timedOut, found := false, false, (initial, [start]);
      assert KeysOn(maze, [start][..0]) == {};
      InitialDerived(maze, start);
      while !solved && !timedOut && queue != [] && iterations < maxIter
        invariant iterations <= maxIter && VisitedInv(visited, history)
        invariant !solved && !timedOut ==> SearchInv(maze, start, end, queue, visited, history, iterations)
        invariant solved ==> !timedOut && EntryOK(maze, start, found) && found.0.pos == end
        invariant ClockQuiet(timeUp, iterations)
        invariant timedOut ==> iterations < maxIter && timeUp(iterations)
        decreases maxIter - iterations, if solved || timedOut then 0 else 1
      {
        if timeUp(iterations) {
          timedOut := true;
        } else {
          ClockStep(timeUp, iterations);
          solved, found := Pop(start, end);
        }
      }
      if !solved && !timedOut {
        if queue == [] {
          ExhaustedMeansUnreachable(maze, start, end, visited, history, iterations);
        } else {
          CapMeansMany(maze, start, history, maxIter);
        }
      }
    }

    /** One iteration: pop the front entry; stop on `end`, otherwise expand it. */
    method Pop(start: Pos, end: Pos) returns (solved: bool, found: (SearchState, seq<Pos>))
      requires maze.Valid() && queue != []
      requires SearchInv(maze, start, end, queue, visited, history, iterations)
      modifies this
      ensures iterations == old(iterations) + 1 && VisitedInv(visited, history)
      ensures solved ==> EntryOK(maze, start, found) && found.0.pos == end
      ensures !solved ==> SearchInv(maze, start, end, queue, visited, history, iterations)
    {
      ghost var q, v, h := queue, visited, history;
      iterations := iterations + 1;
      found := queue[0];
      queue := queue[1..];
      solved := found.0.pos == end;
      if !solved {
        Expand(found.0, found.1);
        ExploreKeepsInvAt(maze, start, end, q, v, h, iterations - 1, queue, visited, history);
      }
    }

    /** Expanding a popped state: pick up its key, press its switch, then try every move. */
    method Expand(s: SearchState, path: seq<Pos>)
      requires maze.Valid()
      modifies this
      ensures var ms := Moves(maze, s);
        var adm := Admit(old(visited), ms);
        queue == old(queue) + Entries(adm, path) && visited == old(visited) + StatesOf(ms)
        && history == old(history) + NextStates(adm)
      ensures iterations == old(iterations)
    {
      var ch := maze.GetCell(s.pos);
      var newKeys := s.keys;
      if IsLower(ch) {
        newKeys := newKeys + {ch};
      }
      var newSwitches := s.switches;
      if ch == 's' {
        newSwitches := newSwitches + {s.pos};
        usage := usage.(switchesActivated := usage.switchesActivated + 1);
      }
      ExplorePossibleMoves(s.pos, newKeys, newSwitches, s.usedTeles, path);
    }

    /** One cell of the pass: a key door not seen before is recorded, and counts when
        its key was collected; a used teleporter cell counts as a teleport. */
    static method VisitCell(ch: char, usedCell: bool, keys: set<char>, usedDoors: set<char>, pairs: nat, teleports: nat)
      returns (usedDoors': set<char>, pairs': nat, teleports': nat)
      ensures usedDoors' == usedDoors + (if IsPlainDoor(ch) then {ch} else {})
      ensures pairs' == pairs + (if IsPlainDoor(ch) && ToLower(ch) in keys && ch !in usedDoors then 1 else 0)
      ensures teleports' == teleports + (if ch == 'O' && usedCell then 1 else 0)
    {
      usedDoors', pairs', teleports' := usedDoors, pairs, teleports;
      if IsPlainDoor(ch) {
        if ch !in usedDoors {
          usedDoors' := usedDoors + {ch};
          if ToLower(ch) in keys {
            pairs' := pairs + 1;
          }
        }
      } else if ch == 'O' && usedCell {
        teleports' := teleports + 1;
      }
    }

    /** The pass over the found path: each distinct key door counts once toward the
        chain when its key was collected; used teleporter cells add to the teleport count. */
    method SummarizePath(path: seq<Pos>, keys: set<char>, usedTeles: set<Pos>) returns (pairs: nat, teleports: nat)
      ensures pairs == |UnlockedDoors(maze, path, keys)|
      ensures teleports == UsedTeleportCells(maze, path, usedTeles)
    {
      pairs, teleports := 0, 0;
      var usedDoors: set<char> := {};
      for i := 0 to |path|
        invariant usedDoors == DoorsOn(maze, path[..i])
        invariant pairs == |UnlockedDoors(maze, path[..i], keys)|
        invariant teleports == UsedTeleportCells(maze, path[..i], usedTeles)
      {
        SummaryStep(maze, path, i, keys, usedTeles);
        usedDoors, pairs, teleports := VisitCell(maze.GetCell(path[i]), path[i] in usedTeles, keys, usedDoors, pairs, teleports);
      }
      assert path[..|path|] == path;
    }
  }

  // ---------------------------------------------------------------------
  // Lemmas about the candidate lists and the admission filter.

  lemma OnlyElement(ds: set<Pos>, a: Pos, b: Pos)
    requires |ds| <= 1 && a in ds && b in ds
    ensures a == b
  {
    if a != b {
      SubsetCardinality({a, b}, ds);
    }
  }

  lemma PushFromSnoc(maze: StrategicMaze, cur: Pos, keys: set<char>, sw: set<Pos>, used: set<Pos>, d: nat, before: seq<Move>)
    requires d < 4 && maze.GetCell(cur) == 'B'
    ensures var push, land := Shift(cur, Directions[d]), Shift(Shift(cur, Directions[d]), Directions[d]);
      before + PushFrom(maze, cur, keys, sw, used, d + 1) == before + PushFrom(maze, cur, keys, sw, used, d) + (
        if maze.GetCell(push) == ' ' && maze.IsTraversable(land) && maze.GetCell(land) != '#'
        then [Move(Push, SearchState(land, keys, sw, used), [push, land])] else [])
  {
  }

  lemma {:induction false} NoPushesOffBlocks(maze: StrategicMaze, cur: Pos, keys: set<char>, sw: set<Pos>, used: set<Pos>, d: nat)
    requires d <= 4 && maze.GetCell(cur) != 'B'
    ensures PushFrom(maze, cur, keys, sw, used, d) == []
  {
    if d > 0 {
      NoPushesOffBlocks(maze, cur, keys, sw, used, d - 1);
    }
  }

  /** Trying the candidates one by one marks every candidate state visited. */
  lemma {:induction false} AfterVisited(f0: Frontier, ms: seq<Move>, path: seq<Pos>)
    ensures After(f0, ms, path).visited == f0.visited + StatesOf(ms)
  {
    if ms != [] {
      var init, m := ms[..|ms| - 1], ms[|ms| - 1];
      AfterVisited(f0, init, path);
      assert ms == init + [m];
      assert StatesOf(ms) == StatesOf(init) + {m.next};
    }
  }

  /** ... enqueues exactly the admitted candidates, in order, and counts every push
      and every admitted teleport. */
  lemma AfterAdmits(f0: Frontier, ms: seq<Move>, path: seq<Pos>)
    ensures var adm, f := Admit(f0.visited, ms), After(f0, ms, path);
      f.queue == f0.queue + Entries(adm, path) && f.history == f0.history + NextStates(adm)
      && f.usage == f0.usage.(teleports := f0.usage.teleports + CountKind(adm, Teleport),
                              blocksMoved := f0.usage.blocksMoved + CountKind(ms, Push))
  {
    AfterQueue(f0, ms, path);
    AfterHistory(f0, ms, path);
    AfterUsage(f0, ms, path);
  }

  /** One candidate more: admitted exactly when its state is not yet visited. */
  lemma AdmitSnoc(f0: Frontier, ms: seq<Move>, path: seq<Pos>)
    requires ms != []
    ensures var init, m := ms[..|ms| - 1], ms[|ms| - 1];
      Admit(f0.visited, ms) == Admit(f0.visited, init)
        + (if m.next in After(f0, init, path).visited then [] else [m])
  {
    AfterVisited(f0, ms[..|ms| - 1], path);
  }

  lemma EntriesSnoc(adm: seq<Move>, m: Move, path: seq<Pos>)
    ensures Entries(adm + [m], path) == Entries(adm, path) + [(m.next, path + m.steps)]
  {
  }

  lemma NextStatesSnoc(adm: seq<Move>, m: Move)
    ensures NextStates(adm + [m]) == NextStates(adm) + [m.next]
  {
  }

  lemma CountKindSnoc(adm: seq<Move>, m: Move, kind: MoveKind)
    ensures CountKind(adm + [m], kind) == CountKind(adm, kind) + (if m.kind == kind then 1 else 0)
  {
    assert (adm + [m])[..|adm|] == adm;
  }

  lemma {:induction false} AfterQueue(f0: Frontier, ms: seq<Move>, path: seq<Pos>)
    ensures After(f0, ms, path).queue == f0.queue + Entries(Admit(f0.visited, ms), path)
  {
    if ms == [] {
      assert f0.queue + Entries([], path) == f0.queue;
    } else {
      var init, m := ms[..|ms| - 1], ms[|ms| - 1];
      var f1, a0 := After(f0, init, path), Admit(f0.visited, init);
      AfterQueue(f0, init, path);
      AdmitSnoc(f0, ms, path);
      assert After(f0, ms, path) == Step(f1, m, path);
      if m.next !in f1.visited {
        EntriesSnoc(a0, m, path);
      }
    }
  }

  lemma {:induction false} AfterHistory(f0: Frontier, ms: seq<Move>, path: seq<Pos>)
    ensures After(f0, ms, path).history == f0.history + NextStates(Admit(f0.visited, ms))
  {
    if ms == [] {
      assert f0.history + NextStates([]) == f0.history;
    } else {
      var init, m := ms[..|ms| - 1], ms[|ms| - 1];
      var f1, a0 := After(f0, init, path), Admit(f0.visited, init);
      AfterHistory(f0, init, path);
      AdmitSnoc(f0, ms, path);
      assert After(f0, ms, path) == Step(f1, m, path);
      if m.next !in f1.visited {
        NextStatesSnoc(a0, m);
      }
    }
  }

  lemma {:induction false} AfterUsage(f0: Frontier, ms: seq<Move>, path: seq<Pos>)
    ensures var u := After(f0, ms, path).usage;
      u.teleports == f0.usage.teleports + CountKind(Admit(f0.visited, ms), Teleport)
      && u.blocksMoved == f0.usage.blocksMoved + CountKind(ms, Push)
      && u.switchesActivated == f0.usage.switchesActivated
  {
    if ms != [] {
      var init, m := ms[..|ms| - 1], ms[|ms| - 1];
      var f1, a0 := After(f0, init, path), Admit(f0.visited, init);
      AfterUsage(f0, init, path);
      AdmitSnoc(f0, ms, path);
      var u1, u := f1.usage, After(f0, ms, path).usage;
      assert After(f0, ms, path) == Step(f1, m, path);
      assert u.blocksMoved == u1.blocksMoved + (if m.kind == Push then 1 else 0);
      assert u.switchesActivated == u1.switchesActivated;
      assert ms == init + [m];
      CountKindSnoc(init, m, Push);
      if m.next !in f1.visited {
        assert u.teleports == u1.teleports + (if m.kind == Teleport then 1 else 0);
        CountKindSnoc(a0, m, Teleport);
      } else {
        assert u.teleports == u1.teleports;
        assert Admit(f0.visited, ms) == a0 + [] == a0;
      }
    }
  }

  /** The admitted candidates are new, pairwise distinct, and with the visited set
      they account for every candidate state. */
  lemma {:induction false} AdmitFacts(v: set<SearchState>, ms: seq<Move>)
    ensures forall k :: 0 <= k < |Admit(v, ms)| ==> Admit(v, ms)[k] in ms && Admit(v, ms)[k].next !in v
    ensures forall a, b :: 0 <= a < b < |Admit(v, ms)| ==> Admit(v, ms)[a].next != Admit(v, ms)[b].next
    ensures forall st :: st in StatesOf(ms) ==> st in v || exists k :: 0 <= k < |Admit(v, ms)| && Admit(v, ms)[k].next == st
  {
    if ms != [] {
      var init, m := ms[..|ms| - 1], ms[|ms| - 1];
      AdmitFacts(v, init);
      var a0 := Admit(v, init);
      assert ms == init + [m];
      assert StatesOf(ms) == StatesOf(init) + {m.next};
      forall k | 0 <= k < |a0| ensures a0[k] in ms {
        assert a0[k] in init;
      }
      forall st | st in StatesOf(init) && st !in v ensures exists k :: 0 <= k < |Admit(v, ms)| && Admit(v, ms)[k].next == st {
        var k :| 0 <= k < |a0| && a0[k].next == st;
        assert Admit(v, ms)[k] == a0[k];
      }
      if m.next !in v && m.next !in StatesOf(init) {
        assert Admit(v, ms)[|a0|] == m;
        forall k | 0 <= k < |a0| ensures a0[k].next != m.next {
          assert a0[k] in init;
        }
      }
    }
  }

  /** The shape of every candidate: what it appends to the path and what state it reaches. */
  ghost predicate MoveShape(maze: StrategicMaze, cur: Pos, keys: set<char>, sw: set<Pos>, used: set<Pos>, m: Move)
  {
    m.next.keys == keys && m.next.switches == sw && |m.steps| >= 1 && m.steps[|m.steps| - 1] == m.next.pos
    && match m.kind
       case Walk => |m.steps| == 1 && Adjacent(cur, m.steps[0]) && m.next.usedTeles == used
                    && IsValidMove(maze, m.steps[0], keys, sw)
       case Teleport => |m.steps| == 1 && maze.GetCell(cur) == 'O' && cur !in used
                        && m.steps[0] in maze.TeleportDestinations(cur) && maze.IsTraversable(m.steps[0])
                        && m.next.usedTeles == used + {cur}
       case Push => |m.steps| == 2 && maze.GetCell(cur) == 'B' && Adjacent(cur, m.steps[0])
                    && Adjacent(m.steps[0], m.steps[1]) && maze.GetCell(m.steps[0]) == ' '
                    && maze.IsTraversable(m.steps[1]) && m.next.usedTeles == used
  }

  lemma {:induction false} WalkShape(maze: StrategicMaze, cur: Pos, keys: set<char>, sw: set<Pos>, used: set<Pos>, d: nat)
    requires d <= 4
    ensures forall m :: m in WalkFrom(maze, cur, keys, sw, used, d) ==> m.kind == Walk && MoveShape(maze, cur, keys, sw, used, m)
  {
    if d > 0 {
      WalkShape(maze, cur, keys, sw, used, d - 1);
      DirectionsAreAdjacent(cur, d - 1);
    }
  }

  lemma {:induction false} PushShape(maze: StrategicMaze, cur: Pos, keys: set<char>, sw: set<Pos>, used: set<Pos>, d: nat)
    requires d <= 4
    ensures forall m :: m in PushFrom(maze, cur, keys, sw, used, d) ==> m.kind == Push && MoveShape(maze, cur, keys, sw, used, m)
  {
    if d > 0 {
      PushShape(maze, cur, keys, sw, used, d - 1);
      DirectionsAreAdjacent(cur, d - 1);
      DirectionsAreAdjacent(Shift(cur, Directions[d - 1]), d - 1);
    }
  }

  lemma CandidateShape(maze: StrategicMaze, cur: Pos, keys: set<char>, sw: set<Pos>, used: set<Pos>)
    ensures forall m :: m in Candidates(maze, cur, keys, sw, used) ==> MoveShape(maze, cur, keys, sw, used, m)
  {
    WalkShape(maze, cur, keys, sw, used, 4);
    PushShape(maze, cur, keys, sw, used, 4);
  }

  /** Successors of a popped state: keys and switches gain what lies under it and
      are otherwise unchanged; the used teleporters grow only by a teleport, which
      starts from an unused 'O' and lands on its destination. */
  lemma SuccessorSets(maze: StrategicMaze, s: SearchState, m: Move)
    requires m in Moves(maze, s)
    ensures m.next.keys == NewKeys(maze, s) && m.next.switches == NewSwitches(maze, s)
    ensures s.keys <= m.next.keys && s.switches <= m.next.switches && s.usedTeles <= m.next.usedTeles
    ensures m.kind == Teleport <==> m.next.usedTeles != s.usedTeles
    ensures m.kind == Teleport ==>
      maze.GetCell(s.pos) == 'O' && s.pos !in s.usedTeles && m.next.usedTeles == s.usedTeles + {s.pos}
      && m.next.pos in maze.TeleportDestinations(s.pos)
  {
    CandidateShape(maze, s.pos, NewKeys(maze, s), NewSwitches(maze, s), s.usedTeles);
  }

  /** A step onto a key door needs its key, whether held before or lying under the
      popped state; 'X', 'Y' and 'Z' need two keys, a switch, and both. */
  lemma WalkRules(maze: StrategicMaze, s: SearchState, m: Move)
    requires m in Moves(maze, s) && m.kind == Walk
    ensures var ch := maze.GetCell(m.next.pos);
      InGrid(maze.grid, m.next.pos) && ch != '#'
      && (IsPlainDoor(ch) ==> ToLower(ch) in NewKeys(maze, s))
      && (ch == 'X' ==> |NewKeys(maze, s)| >= 2)
      && (ch == 'Y' ==> NewSwitches(maze, s) != {})
      && (ch == 'Z' ==> NewKeys(maze, s) != {} && NewSwitches(maze, s) != {})
  {
    CandidateShape(maze, s.pos, NewKeys(maze, s), NewSwitches(maze, s), s.usedTeles);
  }

  /** Holding more keys and switches never makes a step invalid. */
  lemma ValidMoveMonotone(maze: StrategicMaze, p: Pos, k1: set<char>, s1: set<Pos>, k2: set<char>, s2: set<Pos>)
    requires k1 <= k2 && s1 <= s2
    requires IsValidMove(maze, p, k1, s1)
    ensures IsValidMove(maze, p, k2, s2)
  {
    SubsetCardinality(k1, k2);
  }

  // ---------------------------------------------------------------------
  // The loop invariant.

  lemma KeysOnSnoc(maze: StrategicMaze, ps: seq<Pos>, p: Pos)
    ensures KeysOn(maze, ps + [p]) == KeysOn(maze, ps) + (if IsLower(maze.GetCell(p)) then {maze.GetCell(p)} else {})
    ensures SwitchesOn(maze, ps + [p]) == SwitchesOn(maze, ps) + (if maze.GetCell(p) == 's' then {p} else {})
  {
    assert (ps + [p])[..|ps|] == ps;
  }

  /** What extending a path by a move needs to know about the move. */
  ghost predicate StepShape(maze: StrategicMaze, cur: Pos, keys: set<char>, sw: set<Pos>, m: Move)
  {
    m.next.keys == keys && m.next.switches == sw
    && (if m.kind == Push then |m.steps| == 2 else |m.steps| == 1)
    && m.steps[|m.steps| - 1] == m.next.pos && StepOK(maze, cur, m.steps[0])
    && (m.kind == Push ==> StepOK(maze, m.steps[0], m.steps[1]) && maze.GetCell(m.steps[0]) == ' ')
  }

  lemma ShapeSteps(maze: StrategicMaze, cur: Pos, keys: set<char>, sw: set<Pos>, used: set<Pos>, m: Move)
    requires MoveShape(maze, cur, keys, sw, used, m)
    ensures StepShape(maze, cur, keys, sw, m)
  {
  }

  lemma MoveStepShape(maze: StrategicMaze, s: SearchState, m: Move)
    requires m in Moves(maze, s)
    ensures StepShape(maze, s.pos, NewKeys(maze, s), NewSwitches(maze, s), m)
  {
    CandidateShape(maze, s.pos, NewKeys(maze, s), NewSwitches(maze, s), s.usedTeles);
    ShapeSteps(maze, s.pos, NewKeys(maze, s), NewSwitches(maze, s), s.usedTeles, m);
  }

  lemma ExtendSteps(maze: StrategicMaze, s: SearchState, path: seq<Pos>, keys: set<char>, sw: set<Pos>, m: Move)
    requires |path| >= 1 && path[|path| - 1] == s.pos && StepsOK(maze, path)
    requires StepShape(maze, s.pos, keys, sw, m)
    ensures StepsOK(maze, path + m.steps)
  {
    var p := path + m.steps;
    forall i | 0 <= i < |p| - 1 ensures StepOK(maze, p[i], p[i + 1]) {
      if i < |path| - 1 {
        assert p[i] == path[i] && p[i + 1] == path[i + 1];
      } else if i == |path| - 1 {
        assert p[i] == s.pos && p[i + 1] == m.steps[0];
      } else {
        assert p[i] == m.steps[0] && p[i + 1] == m.steps[1];
      }
    }
  }

  /** A whole path to `s` collects what `s` holds after standing on its own cell. */
  lemma PathHolds(maze: StrategicMaze, s: SearchState, path: seq<Pos>)
    requires |path| >= 1 && path[|path| - 1] == s.pos
    requires s.keys == KeysOn(maze, path[..|path| - 1]) && s.switches == SwitchesOn(maze, path[..|path| - 1])
    ensures KeysOn(maze, path) == NewKeys(maze, s) && SwitchesOn(maze, path) == NewSwitches(maze, s)
  {
    var init := path[..|path| - 1];
    assert path == init + [s.pos];
    KeysOnSnoc(maze, init, s.pos);
  }

  lemma ExtendKeys(maze: StrategicMaze, s: SearchState, path: seq<Pos>, m: Move)
    requires |path| >= 1 && path[|path| - 1] == s.pos
    requires s.keys == KeysOn(maze, path[..|path| - 1]) && s.switches == SwitchesOn(maze, path[..|path| - 1])
    requires StepShape(maze, s.pos, NewKeys(maze, s), NewSwitches(maze, s), m)
    ensures var p := path + m.steps;
      m.next.keys == KeysOn(maze, p[..|p| - 1]) && m.next.switches == SwitchesOn(maze, p[..|p| - 1])
  {
    var p := path + m.steps;
    PathHolds(maze, s, path);
    if m.kind == Push {
      assert p[..|p| - 1] == path + [m.steps[0]];
      KeysOnSnoc(maze, path, m.steps[0]);
    } else {
      assert p[..|p| - 1] == path;
    }
  }

  /** Following a move extends an entry to an entry. */
  lemma ExtendEntry(maze: StrategicMaze, start: Pos, s: SearchState, path: seq<Pos>, m: Move)
    requires EntryOK(maze, start, (s, path)) && m in Moves(maze, s)
    ensures EntryOK(maze, start, (m.next, path + m.steps))
  {
    var keys, sw := NewKeys(maze, s), NewSwitches(maze, s);
    MoveStepShape(maze, s, m);
    ExtendSteps(maze, s, path, keys, sw, m);
    ExtendKeys(maze, s, path, m);
    ExtendDerived(maze, start, s, path, m);
    var p := path + m.steps;
    assert p[0] == start && p[|p| - 1] == m.next.pos;
  }

  /** The start entry is the empty run. */
  lemma InitialDerived(maze: StrategicMaze, start: Pos)
    ensures Derived(maze, start, InitialState(start), [start]) && Reachable(maze, start, InitialState(start))
  {
    var s0 := InitialState(start);
    assert IsRun(maze, s0, []) && RunEnd(s0, []) == s0 && [start] + RunSteps([]) == [start];
  }

  /** A successor of the state a run reaches extends the run. */
  lemma ExtendRun(maze: StrategicMaze, s0: SearchState, ms: seq<Move>, m: Move)
    requires IsRun(maze, s0, ms) && m in Moves(maze, RunEnd(s0, ms))
    ensures IsRun(maze, s0, ms + [m]) && RunEnd(s0, ms + [m]) == m.next
    ensures RunSteps(ms + [m]) == RunSteps(ms) + m.steps
  {
    assert (ms + [m])[..|ms|] == ms;
  }

  /** Following a move from a derived entry gives a derived entry. */
  lemma ExtendDerived(maze: StrategicMaze, start: Pos, s: SearchState, path: seq<Pos>, m: Move)
    requires Derived(maze, start, s, path) && m in Moves(maze, s)
    ensures Derived(maze, start, m.next, path + m.steps)
  {
    var s0 := InitialState(start);
    var ms :| IsRun(maze, s0, ms) && RunEnd(s0, ms) == s && path == [start] + RunSteps(ms);
    ExtendRun(maze, s0, ms, m);
    ConcatAssoc([start], RunSteps(ms), m.steps);
  }

  /** A successor of a reachable state is reachable. */
  lemma ExtendReachable(maze: StrategicMaze, start: Pos, s: SearchState, m: Move)
    requires Reachable(maze, start, s) && m in Moves(maze, s)
    ensures Reachable(maze, start, m.next)
  {
    var s0 := InitialState(start);
    var ms :| IsRun(maze, s0, ms) && RunEnd(s0, ms) == s;
    ExtendRun(maze, s0, ms, m);
  }

  /** A derived entry's state is reachable, and its path is a run of moves to its cell. */
  lemma DerivedRoute(maze: StrategicMaze, start: Pos, s: SearchState, path: seq<Pos>)
    requires Derived(maze, start, s, path)
    ensures Reachable(maze, start, s) && MoveRoute(maze, start, s.pos, path) && EndReachable(maze, start, s.pos)
  {
    var s0 := InitialState(start);
    var ms :| IsRun(maze, s0, ms) && RunEnd(s0, ms) == s && path == [start] + RunSteps(ms);
  }

  /** No cell a run of moves appends is a wall: a step is a valid move, a teleport
      lands on a traversable cell, and a push crosses a space onto a traversable cell. */
  lemma {:induction false} RunStepsOffWalls(maze: StrategicMaze, s0: SearchState, ms: seq<Move>)
    requires IsRun(maze, s0, ms)
    ensures forall i :: 0 <= i < |RunSteps(ms)| ==> maze.GetCell(RunSteps(ms)[i]) != '#'
    decreases |ms|
  {
    if ms != [] {
      var init, m := ms[..|ms| - 1], ms[|ms| - 1];
      RunStepsOffWalls(maze, s0, init);
      MoveStepsOffWalls(maze, RunEnd(s0, init), m);
      assert RunSteps(ms) == RunSteps(init) + m.steps;
      ConcatOffWalls(maze, RunSteps(init), m.steps);
    }
  }

  lemma MoveStepsOffWalls(maze: StrategicMaze, s: SearchState, m: Move)
    requires m in Moves(maze, s)
    ensures forall i :: 0 <= i < |m.steps| ==> maze.GetCell(m.steps[i]) != '#'
  {
    CandidateShape(maze, s.pos, NewKeys(maze, s), NewSwitches(maze, s), s.usedTeles);
    ShapeOffWalls(maze, s.pos, NewKeys(maze, s), NewSwitches(maze, s), s.usedTeles, m);
  }

  lemma ShapeOffWalls(maze: StrategicMaze, cur: Pos, keys: set<char>, sw: set<Pos>, used: set<Pos>, m: Move)
    requires MoveShape(maze, cur, keys, sw, used, m)
    ensures forall i :: 0 <= i < |m.steps| ==> maze.GetCell(m.steps[i]) != '#'
  {
    match m.kind
    case Walk =>
      assert IsValidMove(maze, m.steps[0], keys, sw);
    case Teleport =>
      assert maze.IsTraversable(m.steps[0]);
    case Push =>
      assert maze.GetCell(m.steps[0]) == ' ' && maze.IsTraversable(m.steps[1]);
  }

  lemma ConcatOffWalls(maze: StrategicMaze, a: seq<Pos>, b: seq<Pos>)
    requires forall i :: 0 <= i < |a| ==> maze.GetCell(a[i]) != '#'
    requires forall i :: 0 <= i < |b| ==> maze.GetCell(b[i]) != '#'
    ensures forall i :: 0 <= i < |a + b| ==> maze.GetCell((a + b)[i]) != '#'
  {
    forall i | 0 <= i < |a + b| ensures maze.GetCell((a + b)[i]) != '#' {
      if i >= |a| {
        assert (a + b)[i] == b[i - |a|];
      } else {
        assert (a + b)[i] == a[i];
      }
    }
  }

  /** A move route never enters a wall. */
  lemma MoveRouteOffWalls(maze: StrategicMaze, start: Pos, end: Pos, path: seq<Pos>)
    requires MoveRoute(maze, start, end, path)
    ensures |path| >= 1 && path[0] == start
    ensures forall i :: 1 <= i < |path| ==> maze.GetCell(path[i]) != '#'
  {
    var s0 := InitialState(start);
    var ms :| IsRun(maze, s0, ms) && RunEnd(s0, ms).pos == end && path == [start] + RunSteps(ms);
    RunStepsOffWalls(maze, s0, ms);
    ConsOffWalls(maze, start, RunSteps(ms));
  }

  lemma ConsOffWalls(maze: StrategicMaze, start: Pos, steps: seq<Pos>)
    requires forall i :: 0 <= i < |steps| ==> maze.GetCell(steps[i]) != '#'
    ensures forall i :: 1 <= i < |[start] + steps| ==> maze.GetCell(([start] + steps)[i]) != '#'
  {
    forall i | 1 <= i < |[start] + steps| ensures maze.GetCell(([start] + steps)[i]) != '#' {
      assert ([start] + steps)[i] == steps[i - 1];
    }
  }

  /** The states an exploration enqueues are reachable when the popped one is. */
  lemma ReachAfterExplore(maze: StrategicMaze, start: Pos, history: seq<SearchState>, s: SearchState, adm: seq<Move>)
    requires ReachInv(maze, start, history) && Reachable(maze, start, s)
    requires forall k :: 0 <= k < |adm| ==> adm[k] in Moves(maze, s)
    ensures ReachInv(maze, start, history + NextStates(adm))
  {
    var h' := history + NextStates(adm);
    forall k | 0 <= k < |h'| ensures Reachable(maze, start, h'[k]) {
      if k >= |history| {
        assert h'[k] == adm[k - |history|].next;
        ExtendReachable(maze, start, s, adm[k - |history|]);
      } else {
        assert h'[k] == history[k];
      }
    }
  }

  /** The queue after a pop and an exploration still lines up with the history. */
  lemma QueueAfterExplore(maze: StrategicMaze, start: Pos, queue: seq<(SearchState, seq<Pos>)>,
                          history: seq<SearchState>, popped: nat, adm: seq<Move>)
    requires queue != [] && QueueInv(maze, start, queue, history, popped)
    requires forall k :: 0 <= k < |adm| ==> adm[k] in Moves(maze, queue[0].0)
    ensures QueueInv(maze, start, queue[1..] + Entries(adm, queue[0].1), history + NextStates(adm), popped + 1)
  {
    var s, path := queue[0].0, queue[0].1;
    var q', h' := queue[1..] + Entries(adm, path), history + NextStates(adm);
    forall k | 0 <= k < |q'| ensures q'[k].0 == h'[popped + 1 + k] && EntryOK(maze, start, q'[k]) {
      if k >= |queue| - 1 {
        var j := k - (|queue| - 1);
        assert q'[k] == (adm[j].next, path + adm[j].steps);
        assert h'[popped + 1 + k] == adm[j].next;
        ExtendEntry(maze, start, s, path, adm[j]);
      } else {
        assert q'[k] == queue[k + 1];
      }
    }
  }

  /** The visited set and the history keep the same members, and no state repeats. */
  lemma HistoryAfterExplore(visited: set<SearchState>, history: seq<SearchState>, ms: seq<Move>)
    requires VisitedInv(visited, history)
    ensures VisitedInv(visited + StatesOf(ms), history + NextStates(Admit(visited, ms)))
  {
    HistoryMembers(visited, history, ms);
    HistoryNoDup(visited, history, ms);
  }

  lemma HistoryMembers(visited: set<SearchState>, history: seq<SearchState>, ms: seq<Move>)
    requires forall st :: st in visited <==> st in history
    ensures forall st :: st in visited + StatesOf(ms) <==> st in history + NextStates(Admit(visited, ms))
  {
    var adm := Admit(visited, ms);
    var v', h' := visited + StatesOf(ms), history + NextStates(adm);
    AdmitFacts(visited, ms);
    forall st ensures st in v' <==> st in h' {
      if st in StatesOf(ms) && st !in visited {
        var k :| 0 <= k < |adm| && adm[k].next == st;
        assert h'[|history| + k] == st;
      }
      if st in h' && st !in history {
        var k :| 0 <= k < |h'| && h'[k] == st;
        assert adm[k - |history|] in ms;
      }
    }
  }

  lemma HistoryNoDup(visited: set<SearchState>, history: seq<SearchState>, ms: seq<Move>)
    requires (forall st :: st in visited <==> st in history) && NoDup(history)
    ensures NoDup(history + NextStates(Admit(visited, ms)))
  {
    var adm := Admit(visited, ms);
    var h' := history + NextStates(adm);
    AdmitFacts(visited, ms);
    forall a, b | 0 <= a < b < |h'| ensures h'[a] != h'[b] {
      if b >= |history| && a < |history| {
        assert h'[b] == adm[b - |history|].next;
        assert h'[a] in history;
      } else if a >= |history| {
        assert h'[a] == adm[a - |history|].next && h'[b] == adm[b - |history|].next;
      } else {
        assert h'[a] == history[a] && h'[b] == history[b];
      }
    }
  }

  lemma ClosedAfterExplore(maze: StrategicMaze, end: Pos, visited: set<SearchState>, history: seq<SearchState>,
                           popped: nat, h': seq<SearchState>)
    requires ClosedInv(maze, end, visited, history, popped) && popped < |history|
    requires history[popped].pos != end && |history| <= |h'| && h'[..|history|] == history
    ensures ClosedInv(maze, end, visited + StatesOf(Moves(maze, history[popped])), h', popped + 1)
  {
    forall k | 0 <= k < popped + 1
      ensures h'[k].pos != end && StatesOf(Moves(maze, h'[k])) <= visited + StatesOf(Moves(maze, history[popped]))
    {
      assert h'[k] == history[k];
    }
  }

  lemma ExploreKeepsInv(maze: StrategicMaze, start: Pos, end: Pos, queue: seq<(SearchState, seq<Pos>)>,
                        visited: set<SearchState>, history: seq<SearchState>, popped: nat)
    requires SearchInv(maze, start, end, queue, visited, history, popped)
    requires queue != [] && queue[0].0.pos != end
    ensures var s, path := queue[0].0, queue[0].1;
      var ms := Moves(maze, s);
      var adm := Admit(visited, ms);
      SearchInv(maze, start, end, queue[1..] + Entries(adm, path), visited + StatesOf(ms),
                history + NextStates(adm), popped + 1)
  {
    var s, path := queue[0].0, queue[0].1;
    var ms := Moves(maze, s);
    var adm := Admit(visited, ms);
    var h' := history + NextStates(adm);
    AdmitFacts(visited, ms);
    assert forall k :: 0 <= k < |adm| ==> adm[k] in ms;
    QueueAfterExplore(maze, start, queue, history, popped, adm);
    HistoryAfterExplore(visited, history, ms);
    DerivedRoute(maze, start, s, path);
    ReachAfterExplore(maze, start, history, s, adm);
    assert queue[0].0 == history[popped + 0];
    assert h'[..|history|] == history;
    ClosedAfterExplore(maze, end, visited, history, popped, h');
  }

  /** The same, with the state after the exploration named. */
  lemma ExploreKeepsInvAt(maze: StrategicMaze, start: Pos, end: Pos, queue: seq<(SearchState, seq<Pos>)>,
                          visited: set<SearchState>, history: seq<SearchState>, popped: nat,
                          queue': seq<(SearchState, seq<Pos>)>, visited': set<SearchState>, history': seq<SearchState>)
    requires SearchInv(maze, start, end, queue, visited, history, popped)
    requires queue != [] && queue[0].0.pos != end
    requires var ms := Moves(maze, queue[0].0);
      var adm := Admit(visited, ms);
      queue' == queue[1..] + Entries(adm, queue[0].1) && visited' == visited + StatesOf(ms)
      && history' == history + NextStates(adm)
    ensures SearchInv(maze, start, end, queue', visited', history', popped + 1)
  {
    ExploreKeepsInv(maze, start, end, queue, visited, history, popped);
  }

  /** Once the queue is empty, every run of moves from the start ends on a visited
      state off `end`. */
  lemma {:induction false} RunStaysVisited(maze: StrategicMaze, start: Pos, end: Pos, visited: set<SearchState>,
                                           history: seq<SearchState>, ms: seq<Move>)
    requires SearchInv(maze, start, end, [], visited, history, |history|)
    requires IsRun(maze, InitialState(start), ms)
    ensures RunEnd(InitialState(start), ms) in visited && RunEnd(InitialState(start), ms).pos != end
    decreases |ms|
  {
    var s0 := InitialState(start);
    if ms != [] {
      var init, m := ms[..|ms| - 1], ms[|ms| - 1];
      RunStaysVisited(maze, start, end, visited, history, init);
      var j :| 0 <= j < |history| && history[j] == RunEnd(s0, init);
      assert m.next in StatesOf(Moves(maze, history[j]));
    }
    var k :| 0 <= k < |history| && history[k] == RunEnd(s0, ms);
  }

  /** When the queue runs dry, no run of moves from the start reaches the end. */
  lemma ExhaustedMeansUnreachable(maze: StrategicMaze, start: Pos, end: Pos, visited: set<SearchState>,
                                  history: seq<SearchState>, popped: nat)
    requires SearchInv(maze, start, end, [], visited, history, popped)
    ensures !EndReachable(maze, start, end)
  {
    assert popped == |history|;
    if EndReachable(maze, start, end) {
      var ms :| IsRun(maze, InitialState(start), ms) && RunEnd(InitialState(start), ms).pos == end;
      RunStaysVisited(maze, start, end, visited, history, ms);
    }
  }

  /** A search that pops `n` states has seen at least `n` distinct reachable ones. */
  lemma CapMeansMany(maze: StrategicMaze, start: Pos, history: seq<SearchState>, n: nat)
    requires |history| >= n && NoDup(history) && ReachInv(maze, start, history)
    ensures ManyReachable(maze, start, n)
  {
  }

  /** Unless the iteration cap could cut the search short, a search that did not time
      out is solved exactly when the end is reachable. */
  lemma SolvableIffReachable(maze: StrategicMaze, start: Pos, end: Pos, cap: nat, solvable: bool, path: seq<Pos>,
                             keys: set<char>, chainLength: nat)
    requires Outcome(maze, start, end, cap, solvable, path, keys, chainLength)
    requires !ManyReachable(maze, start, cap)
    ensures solvable <==> EndReachable(maze, start, end)
  {
    if solvable {
      var s0 := InitialState(start);
      var ms :| IsRun(maze, s0, ms) && RunEnd(s0, ms).pos == end && path == [start] + RunSteps(ms);
    }
  }

  // ---------------------------------------------------------------------
  // The summary.

  lemma UnlockedDoorsStep(maze: StrategicMaze, ps: seq<Pos>, keys: set<char>)
    requires ps != []
    ensures var ch := maze.GetCell(ps[|ps| - 1]);
      var before := UnlockedDoors(maze, ps[..|ps| - 1], keys);
      UnlockedDoors(maze, ps, keys)
        == before + (if IsPlainDoor(ch) && ToLower(ch) in keys then {ch} else {})
      && (IsPlainDoor(ch) && ToLower(ch) in keys && ch !in DoorsOn(maze, ps[..|ps| - 1]) ==>
            |UnlockedDoors(maze, ps, keys)| == |before| + 1)
  {
  }

  /** What one more cell of the path adds to the door set, the chain and the teleport count. */
  lemma SummaryStep(maze: StrategicMaze, path: seq<Pos>, i: nat, keys: set<char>, used: set<Pos>)
    requires i < |path|
    ensures var ch, p := maze.GetCell(path[i]), path[..i];
      DoorsOn(maze, path[..i + 1]) == DoorsOn(maze, p) + (if IsPlainDoor(ch) then {ch} else {})
      && UsedTeleportCells(maze, path[..i + 1], used)
         == UsedTeleportCells(maze, p, used) + (if ch == 'O' && path[i] in used then 1 else 0)
      && |UnlockedDoors(maze, path[..i + 1], keys)|
         == |UnlockedDoors(maze, p, keys)|
            + (if IsPlainDoor(ch) && ToLower(ch) in keys && ch !in DoorsOn(maze, p) then 1 else 0)
  {
    var ps := path[..i + 1];
    assert ps[..i] == path[..i] && ps[|ps| - 1] == path[i];
    UnlockedCountStep(maze, ps, keys);
  }

  lemma UnlockedCountStep(maze: StrategicMaze, ps: seq<Pos>, keys: set<char>)
    requires ps != []
    ensures var ch, init := maze.GetCell(ps[|ps| - 1]), ps[..|ps| - 1];
      |UnlockedDoors(maze, ps, keys)|
        == |UnlockedDoors(maze, init, keys)|
           + (if IsPlainDoor(ch) && ToLower(ch) in keys && ch !in DoorsOn(maze, init) then 1 else 0)
  {
    var ch, init := maze.GetCell(ps[|ps| - 1]), ps[..|ps| - 1];
    UnlockedDoorsStep(maze, ps, keys);
    if IsPlainDoor(ch) && ToLower(ch) in keys && ch in DoorsOn(maze, init) {
      assert ch in UnlockedDoors(maze, init, keys);
      assert UnlockedDoors(maze, ps, keys) == UnlockedDoors(maze, init, keys);
    }
  }

  /** Different doors need different keys, so the chain never exceeds the keys held. */
  lemma ChainAtMostKeys(maze: StrategicMaze, path: seq<Pos>, keys: set<char>)
    ensures |UnlockedDoors(maze, path, keys)| <= |keys|
  {
    LowerInjective(UnlockedDoors(maze, path, keys), keys);
  }

  lemma LowerInjective(doors: set<char>, keys: set<char>)
    requires forall ch :: ch in doors ==> IsUpper(ch) && ToLower(ch) in keys
    ensures |doors| <= |keys|
    decreases doors
  {
    if doors != {} {
      var x :| x in doors;
      LowerInjective(doors - {x}, keys - {ToLower(x)});
    }
  }
}
