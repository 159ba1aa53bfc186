/** Day 10, "Pipe Maze": walking the loop of pipes from the start tile 'S' and counting the tiles it
    encloses with a scanline. */
module PipeMaze {
  import opened Wrappers

  datatype Dir = Up | Right | Down | Left

  type Pos = (nat, nat)

  /** `Dir::apply` subtracts from a `usize` when moving up or left, so it needs row > 0 or col > 0. */
  predicate CanApply(d: Dir, pos: Pos)
  {
    (d == Up ==> pos.0 > 0) && (d == Left ==> pos.1 > 0)
  }

  /** `p` and `q` are neighbouring tiles: one step apart in a row or in a column. */
  predicate Adjacent(p: Pos, q: Pos)
  {
    (p.0 == q.0 && (p.1 == q.1 + 1 || p.1 + 1 == q.1)) || (p.1 == q.1 && (p.0 == q.0 + 1 || p.0 + 1 == q.0))
  }

  /** `Dir::apply`: one step; rows grow downwards and columns to the right.  It reaches a
      neighbouring tile, from which the opposite step is possible. */
  function Apply(d: Dir, pos: Pos): (p: Pos)
    requires CanApply(d, pos)
    ensures Adjacent(p, pos)
    ensures CanApply(Opposite(d), p)
  {
    match d
    case Up => (pos.0 - 1, pos.1)
    case Right => (pos.0, pos.1 + 1)
    case Down => (pos.0 + 1, pos.1)
    case Left => (pos.0, pos.1 - 1)
  }

  function Opposite(d: Dir): Dir
  {
    match d
    case Up => Down
    case Down => Up
    case Left => Right
    case Right => Left
  }

  /** A step can always be undone, and the step back starts where the step ended. */
  lemma ApplyOpposite(d: Dir, pos: Pos)
    requires CanApply(d, pos)
    ensures CanApply(Opposite(d), Apply(d, pos)) && Apply(Opposite(d), Apply(d, pos)) == pos
    ensures Apply(d, pos) != pos
  {
  }

  /** The direction in which a walk leaves `tile` after entering it moving `last`; None for the
      `unreachable!` combinations (a pipe entered from a side it does not connect, ground, the start
      tile or any other character). */
  function Turn(tile: char, last: Dir): (r: Option<Dir>)
    ensures r.Some? ==> IsPipe(tile)
    ensures r.Some? ==> r.value != Opposite(last)
  {
    match tile
    case '|' => (match last case Up => Some(Up) case Down => Some(Down) case _ => None)
    case '-' => (match last case Left => Some(Left) case Right => Some(Right) case _ => None)
    case 'L' => (match last case Left => Some(Up) case Down => Some(Right) case _ => None)
    case 'J' => (match last case Down => Some(Left) case Right => Some(Up) case _ => None)
    case '7' => (match last case Up => Some(Left) case Right => Some(Down) case _ => None)
    case 'F' => (match last case Left => Some(Down) case Up => Some(Right) case _ => None)
    case _ => None
  }

  /** `next_pos` is defined on exactly these twelve (tile, incoming direction) pairs. */
  lemma TurnDomain(tile: char, last: Dir)
    ensures Turn(tile, last).Some? <==>
      ((tile, last) in
        {('|', Up), ('|', Down), ('-', Left), ('-', Right), ('L', Left), ('L', Down),
         ('J', Down), ('J', Right), ('7', Up), ('7', Right), ('F', Left), ('F', Up)})
  {
  }

  /** Every pipe can be walked both ways: leaving against the way one came in. */
  lemma TurnReversible(tile: char, last: Dir)
    requires Turn(tile, last).Some?
    ensures Turn(tile, Opposite(Turn(tile, last).value)) == Some(Opposite(last))
  {
  }

  predicate IsPipe(c: char)
  {
    c in {'|', '-', 'L', 'J', '7', 'F'}
  }

  predicate InGrid(grid: seq<seq<char>>, pos: Pos)
  {
    pos.0 < |grid| && pos.1 < |grid[pos.0]|
  }

  /** `next_pos`: the next position and direction; None where the source panics (an index outside
      the grid, an `unreachable!` tile, or a step above row 0 or left of column 0). */
  function NextPos(grid: seq<seq<char>>, pos: Pos, last: Dir): (r: Option<(Pos, Dir)>)
    ensures !InGrid(grid, pos) ==> r.None?
    ensures InGrid(grid, pos) && !IsPipe(grid[pos.0][pos.1]) ==> r.None?
    ensures r.Some? ==> Adjacent(r.value.0, pos) && r.value.1 != Opposite(last)
  {
    if !InGrid(grid, pos) then None
    else match Turn(grid[pos.0][pos.1], last)
      case None => None
      case Some(d) => if CanApply(d, pos) then Some((Apply(d, pos), d)) else None
  }

  /** `position(|c| c == 'S')` on one row. */
  function IndexOf(row: seq<char>, ch: char): (r: Option<nat>)
    ensures r.Some? ==> r.value < |row| && row[r.value] == ch && forall k :: 0 <= k < r.value ==> row[k] != ch
    ensures r.None? <==> ch !in row
  {
    if row == [] then None
    else if row[0] == ch then Some(0)
    else match IndexOf(row[1..], ch)
      case None => None
      case Some(k) => Some(k + 1)
  }

  /** The first 'S' in row-major order from row `r0` on. */
  function FindStartFrom(grid: seq<seq<char>>, r0: nat): (p: Option<Pos>)
    ensures p.Some? ==>
      && r0 <= p.value.0 && InGrid(grid, p.value) && grid[p.value.0][p.value.1] == 'S'
      && (forall r, c :: r0 <= r < p.value.0 && 0 <= c < |grid[r]| ==> grid[r][c] != 'S')
      && (forall c :: 0 <= c < p.value.1 ==> grid[p.value.0][c] != 'S')
    ensures p.None? <==> forall r :: r0 <= r < |grid| ==> 'S' !in grid[r]
    decreases |grid| - r0
  {
    if r0 >= |grid| then None
    else match IndexOf(grid[r0], 'S')
      case Some(c) => Some((r0, c))
      case None =>
        assert forall c :: 0 <= c < |grid[r0]| ==> grid[r0][c] != 'S';
        FindStartFrom(grid, r0 + 1)
  }

  /** `find_start`: the first 'S' in row-major order, and None exactly when no row holds one
      (where `unwrap` panics). */
  function FindStart(grid: seq<seq<char>>): (p: Option<Pos>)
    ensures p.Some? ==>
      && InGrid(grid, p.value) && grid[p.value.0][p.value.1] == 'S'
      && (forall r, c :: 0 <= r < p.value.0 && 0 <= c < |grid[r]| ==> grid[r][c] != 'S')
      && (forall c :: 0 <= c < p.value.1 ==> grid[p.value.0][c] != 'S')
    ensures p.None? <==> forall r :: 0 <= r < |grid| ==> 'S' !in grid[r]
  {
    FindStartFrom(grid, 0)
  }

  // ---------------------------------------------------------------------------------------------
  // The walk along the loop

  /** The position and direction after the first step from `start` (`k == 0`) and `k` further
      `next_pos` steps; None once a step panicked. */
  function State(grid: seq<seq<char>>, start: Pos, dir: Dir, k: nat): Option<(Pos, Dir)>
  {
    if k == 0 then (if CanApply(dir, start) then Some((Apply(dir, start), dir)) else None)
    else match State(grid, start, dir, k - 1)
      case None => None
      case Some(s) => NextPos(grid, s.0, s.1)
  }

  /** State `k` stands on an 'S' tile: the walk is back. */
  predicate Back(grid: seq<seq<char>>, start: Pos, dir: Dir, k: nat)
  {
    State(grid, start, dir, k).Some? && InGrid(grid, State(grid, start, dir, k).value.0)
    && grid[State(grid, start, dir, k).value.0.0][State(grid, start, dir, k).value.0.1] == 'S'
  }

  function FirstBackFrom(grid: seq<seq<char>>, start: Pos, dir: Dir, k: nat, fuel: nat): Option<nat>
    decreases fuel + 1 - k
  {
    if k > fuel then None
    else if Back(grid, start, dir, k) then Some(k)
    else FirstBackFrom(grid, start, dir, k + 1, fuel)
  }

  /** The first state, within `fuel` steps, that stands on 'S' again. */
  function FirstBack(grid: seq<seq<char>>, start: Pos, dir: Dir, fuel: nat): Option<nat>
  {
    FirstBackFrom(grid, start, dir, 0, fuel)
  }

  lemma {:induction false} FirstBackFromMeaning(grid: seq<seq<char>>, start: Pos, dir: Dir, k: nat, fuel: nat)
    ensures FirstBackFrom(grid, start, dir, k, fuel).Some? ==>
      var n := FirstBackFrom(grid, start, dir, k, fuel).value;
      k <= n <= fuel && Back(grid, start, dir, n) && forall j :: k <= j < n ==> !Back(grid, start, dir, j)
    ensures FirstBackFrom(grid, start, dir, k, fuel).None? <==>
      forall j :: k <= j <= fuel ==> !Back(grid, start, dir, j)
    decreases fuel + 1 - k
  {
    if k <= fuel && !Back(grid, start, dir, k) {
      FirstBackFromMeaning(grid, start, dir, k + 1, fuel);
    }
  }

  /** `FirstBack` is the least step that returns to 'S', and None exactly when none up to `fuel`
      does. */
  lemma FirstBackMeaning(grid: seq<seq<char>>, start: Pos, dir: Dir, fuel: nat)
    ensures FirstBack(grid, start, dir, fuel).Some? ==>
      var n := FirstBack(grid, start, dir, fuel).value;
      n <= fuel && Back(grid, start, dir, n) && forall j :: 0 <= j < n ==> !Back(grid, start, dir, j)
    ensures FirstBack(grid, start, dir, fuel).None? <==>
      forall j :: 0 <= j <= fuel ==> !Back(grid, start, dir, j)
  {
    FirstBackFromMeaning(grid, start, dir, 0, fuel);
  }

  lemma {:induction false} NoReturnAfterPanic(grid: seq<seq<char>>, start: Pos, dir: Dir, k: nat, fuel: nat)
    requires State(grid, start, dir, k).None?
    ensures FirstBackFrom(grid, start, dir, k, fuel) == None
    decreases fuel + 1 - k
  {
    if k <= fuel {
      NoReturnAfterPanic(grid, start, dir, k + 1, fuel);
    }
  }

  /** The loop shared by `part1` and `part2`: step with `next_pos` until the tile is 'S' again.
      Returns the number of `next_pos` steps, the final state, and every position visited. */
  method WalkLoop(grid: seq<seq<char>>, start: Pos, dir: Dir, fuel: nat)
    returns (r: Option<nat>, path: set<Pos>)
    ensures r == FirstBack(grid, start, dir, fuel)
    ensures r.Some? ==> path == {start} + Visited(grid, start, dir, r.value)
  {
    if !CanApply(dir, start) {
      NoReturnAfterPanic(grid, start, dir, 0, fuel);
      return None, {};
    }
    var current := (Apply(dir, start), dir);
    var k: nat := 0;
    path := {start, current.0};
    while !InGrid(grid, current.0) || grid[current.0.0][current.0.1] != 'S'
      invariant k <= fuel
      invariant State(grid, start, dir, k) == Some(current)
      invariant FirstBackFrom(grid, start, dir, k, fuel) == FirstBack(grid, start, dir, fuel)
      invariant path == {start} + Visited(grid, start, dir, k)
      decreases fuel - k
    {
      var next := NextPos(grid, current.0, current.1);
      if k == fuel || next.None? {
        if next.None? {
          NoReturnAfterPanic(grid, start, dir, k + 1, fuel);
        }
        return None, {};
      }
      current := next.value;
      k := k + 1;
      path := path + {current.0};
    }
    r := Some(k);
  }

  /** The positions of states 0 to `k`. */
  function Visited(grid: seq<seq<char>>, start: Pos, dir: Dir, k: nat): set<Pos>
  {
    (if k == 0 then {} else Visited(grid, start, dir, k - 1))
    + (if State(grid, start, dir, k).Some? then {State(grid, start, dir, k).value.0} else {})
  }

  /** `part1`: `steps` counts the tiles entered until 'S' is entered again, one more than the
      `next_pos` steps; the farthest tile is half of it away. */
  method Part1(grid: seq<seq<char>>, dir: Dir, fuel: nat) returns (r: Option<nat>)
    ensures r.Some? <==> FindStart(grid).Some? && FirstBack(grid, FindStart(grid).value, dir, fuel).Some?
    ensures r.Some? ==> r.value == (FirstBack(grid, FindStart(grid).value, dir, fuel).value + 1) / 2
  {
    var start := FindStart(grid);
    if start.None? {
      return None;
    }
    var k, _ := WalkLoop(grid, start.value, dir, fuel);
    if k.None? {
      return None;
    }
    var steps := k.value + 1;
    r := Some(steps / 2);
  }

  // ---------------------------------------------------------------------------------------------
  // The scanline of part 2

  /** The scanline state of one row: whether the side below the scan line is inside the loop, the
      column where the current inside stretch began, and the tiles counted so far. */
  datatype Scan = Scan(inside: bool, start: nat, count: nat)

  /** One cell of the scanline; None exactly for an on-path cell that is not a pipe
      (`unreachable!`).  Cells off the path and on-path '-' change nothing, `inside` flips only on
      an on-path '|', 'F' or '7', and the count never shrinks. */
  function ScanCell(st: Scan, c: char, onPath: bool, col: nat): (r: Option<Scan>)
    requires st.start <= col
    ensures r.Some? ==> r.value.start <= col + 1
    ensures !onPath || c == '-' ==> r == Some(st)
    ensures r.None? <==> onPath && !IsPipe(c)
    ensures r.Some? ==> (r.value.inside != st.inside <==> onPath && c in {'|', 'F', '7'})
    ensures r.Some? ==> r.value.count >= st.count
  {
    var closed := if st.inside then st.count + (col - st.start) else st.count;
    if !onPath then Some(st)
    else match c
      case '|' => Some(Scan(!st.inside, if !st.inside then col + 1 else st.start, closed))
      case '-' => Some(st)
      case 'F' => Some(Scan(!st.inside, st.start, closed))
      case 'L' => Some(Scan(st.inside, st.start, closed))
      case '7' => Some(Scan(!st.inside, if !st.inside then col + 1 else st.start, st.count))
      case 'J' => Some(Scan(st.inside, if st.inside then col + 1 else st.start, st.count))
      case _ => None
  }

  /** The tile the scan reads: 'S' stands for `start_char`. */
  function CellAt(grid: seq<seq<char>>, startChar: char, r: nat, c: nat): char
    requires r < |grid| && c < |grid[r]|
  {
    if grid[r][c] == 'S' then startChar else grid[r][c]
  }

  /** Row `r` as the scan reads it. */
  function RowCells(grid: seq<seq<char>>, startChar: char, r: nat): seq<char>
    requires r < |grid|
  {
    seq(|grid[r]|, c requires 0 <= c < |grid[r]| => CellAt(grid, startChar, r, c))
  }

  /** Which cells of row `r` (of length `n`) lie on the path. */
  function RowOnPath(path: set<Pos>, r: nat, n: nat): seq<bool>
  {
    seq(n, c => (r, c) in path)
  }

  /** The scan state after the first `c` cells of a row with tiles `t` and path flags `on`. */
  function ScanRow(t: seq<char>, on: seq<bool>, c: nat): (st: Option<Scan>)
    requires |on| == |t| && c <= |t|
    ensures st.Some? ==> st.value.start <= c
  {
    if c == 0 then Some(Scan(false, 0, 0))
    else match ScanRow(t, on, c - 1)
      case None => None
      case Some(st) => ScanCell(st, t[c - 1], on[c - 1], c - 1)
  }

  /** The scan state after the first `c` cells of row `r`. */
  function RowState(grid: seq<seq<char>>, startChar: char, path: set<Pos>, r: nat, c: nat): Option<Scan>
    requires r < |grid| && c <= |grid[r]|
  {
    ScanRow(RowCells(grid, startChar, r), RowOnPath(path, r, |grid[r]|), c)
  }

  /** The tiles counted in the first `rows` rows; None if a row's scan failed. */
  function GridCount(grid: seq<seq<char>>, startChar: char, path: set<Pos>, rows: nat): Option<nat>
    requires rows <= |grid|
  {
    if rows == 0 then Some(0)
    else match GridCount(grid, startChar, path, rows - 1)
      case None => None
      case Some(n) =>
        match RowState(grid, startChar, path, rows - 1, |grid[rows - 1]|)
        case None => None
        case Some(st) => Some(n + st.count)
  }

  /** A failed cell makes the whole count fail. */
  lemma ScanFailurePersists(grid: seq<seq<char>>, startChar: char, path: set<Pos>, r: nat, c: nat)
    requires r < |grid| && c <= |grid[r]| && RowState(grid, startChar, path, r, c).None?
    ensures GridCount(grid, startChar, path, |grid|).None?
  {
    RowFailurePersists(grid, startChar, path, r, c, |grid[r]|);
    assert GridCount(grid, startChar, path, r + 1).None?;
    CountFailurePersists(grid, startChar, path, r + 1, |grid|);
  }

  lemma {:induction false} RowFailurePersists(grid: seq<seq<char>>, startChar: char, path: set<Pos>, r: nat, c: nat, c': nat)
    requires r < |grid| && c <= c' <= |grid[r]| && RowState(grid, startChar, path, r, c).None?
    ensures RowState(grid, startChar, path, r, c').None?
  {
    ScanFailureStays(RowCells(grid, startChar, r), RowOnPath(path, r, |grid[r]|), c, c');
  }

  lemma {:induction false} ScanFailureStays(t: seq<char>, on: seq<bool>, c: nat, c': nat)
    requires |on| == |t| && c <= c' <= |t| && ScanRow(t, on, c).None?
    ensures ScanRow(t, on, c').None?
    decreases c' - c
  {
    if c < c' {
      ScanFailureStays(t, on, c + 1, c');
    }
  }

  lemma {:induction false} CountFailurePersists(grid: seq<seq<char>>, startChar: char, path: set<Pos>, rows: nat, rows': nat)
    requires rows <= rows' <= |grid| && GridCount(grid, startChar, path, rows).None?
    ensures GridCount(grid, startChar, path, rows').None?
    decreases rows' - rows
  {
    if rows < rows' {
      CountFailurePersists(grid, startChar, path, rows + 1, rows');
    }
  }

  /** The nested loops of `part2` over the rows and the cells of each row. */
  method CountInside(grid: seq<seq<char>>, startChar: char, path: set<Pos>) returns (r: Option<nat>)
    ensures r == GridCount(grid, startChar, path, |grid|)
  {
    var insideTiles: nat := 0;
    for row := 0 to |grid|
      invariant GridCount(grid, startChar, path, row) == Some(insideTiles)
    {
      var inside := false;
      var insideStart: nat := 0;
      var rowStart := insideTiles;
      for col := 0 to |grid[row]|
        invariant rowStart <= insideTiles
        invariant RowState(grid, startChar, path, row, col) == Some(Scan(inside, insideStart, insideTiles - rowStart))
      {
        var c := if grid[row][col] == 'S' then startChar else grid[row][col];
        if (row, col) in path {
          match c {
            case '|' =>
              if inside {
                insideTiles := insideTiles + (col - insideStart);
              }
              inside := !inside;
              if inside {
                insideStart := col + 1;
              }
            case '-' =>
            case 'F' =>
              if inside {
                insideTiles := insideTiles + (col - insideStart);
              }
              inside := !inside;
            case 'L' =>
              if inside {
                insideTiles := insideTiles + (col - insideStart);
              }
            case '7' =>
              inside := !inside;
              if inside {
                insideStart := col + 1;
              }
            case 'J' =>
              if inside {
                insideStart := col + 1;
              }
            case _ =>
              ScanFailurePersists(grid, startChar, path, row, col + 1);
              return None;
          }
        }
      }
    }
    r := Some(insideTiles);
  }

  /** `part2`: collect the positions of the loop, then count the enclosed tiles row by row. */
  method Part2(grid: seq<seq<char>>, dir: Dir, startChar: char, fuel: nat) returns (r: Option<nat>)
    ensures FindStart(grid).None? ==> r.None?
    ensures FindStart(grid).Some? ==>
      var s := FindStart(grid).value;
      match FirstBack(grid, s, dir, fuel)
      case None => r.None?
      case Some(k) => r == GridCount(grid, startChar, {s} + Visited(grid, s, dir, k), |grid|)
  {
    var start := FindStart(grid);
    if start.None? {
      return None;
    }
    var k, path := WalkLoop(grid, start.value, dir, fuel);
    if k.None? {
      return None;
    }
    r := CountInside(grid, startChar, path);
  }

  // ---------------------------------------------------------------------------------------------
  // What the scanline counts

  /** A path tile that connects downwards: the scan line just below the centre of the row crosses
      the loop there. */
  predicate SouthAt(t: seq<char>, on: seq<bool>, j: nat)
    requires |on| == |t| && j < |t|
  {
    on[j] && t[j] in {'|', 'F', '7'}
  }

  /** The number of downward-connecting path tiles among the first `c` cells. */
  function Crossings(t: seq<char>, on: seq<bool>, c: nat): nat
    requires |on| == |t| && c <= |t|
  {
    if c == 0 then 0 else Crossings(t, on, c - 1) + (if SouthAt(t, on, c - 1) then 1 else 0)
  }

  /** The number of cells among the first `c` that are off the path and have an odd number of
      crossings to their left: by the parity rule, the enclosed tiles. */
  function Enclosed(t: seq<char>, on: seq<bool>, c: nat): nat
    requires |on| == |t| && c <= |t|
  {
    if c == 0 then 0
    else Enclosed(t, on, c - 1) + (if !on[c - 1] && Crossings(t, on, c - 1) % 2 == 1 then 1 else 0)
  }

  /** Whether cell `c` lies after an 'F' or 'L' that opened a horizontal run not yet closed by a
      'J' or '7'. */
  function InRun(t: seq<char>, on: seq<bool>, c: nat): bool
    requires |on| == |t| && c <= |t|
  {
    if c == 0 then false
    else if !InRun(t, on, c - 1) then on[c - 1] && t[c - 1] in {'F', 'L'}
    else !(on[c - 1] && t[c - 1] in {'J', '7'})
  }

  /** The path tiles a loop can show along a row: outside a horizontal run only '|', 'F' and 'L';
      inside one only '-' up to the closing 'J' or '7'. */
  predicate Allowed(t: seq<char>, on: seq<bool>, c: nat)
    requires |on| == |t| && c < |t|
  {
    if InRun(t, on, c) then on[c] && t[c] in {'-', 'J', '7'}
    else on[c] ==> t[c] in {'|', 'F', 'L'}
  }

  /** A row as a closed loop crosses it: every path tile allowed, no run left open, and an even
      number of crossings. */
  predicate WellFormedRow(t: seq<char>, on: seq<bool>)
    requires |on| == |t|
  {
    (forall c :: 0 <= c < |t| ==> Allowed(t, on, c))
    && !InRun(t, on, |t|) && Crossings(t, on, |t|) % 2 == 0
  }

  /** The scan state in the middle of a row: `inside` is the crossing parity; outside a run the
      count plus the open stretch, inside a run the count alone, is the number of enclosed cells. */
  predicate ScanInvariant(t: seq<char>, on: seq<bool>, c: nat, st: Scan)
    requires |on| == |t| && c <= |t|
  {
    && st.inside == (Crossings(t, on, c) % 2 == 1)
    && if st.inside && !InRun(t, on, c)
       then st.start <= c && st.count + (c - st.start) == Enclosed(t, on, c)
       else st.count == Enclosed(t, on, c)
  }

  lemma ScanStep(t: seq<char>, on: seq<bool>, c: nat, st: Scan)
    requires |on| == |t| && c < |t| && st.start <= c
    requires Allowed(t, on, c) && ScanInvariant(t, on, c, st)
    ensures ScanCell(st, t[c], on[c], c).Some?
    ensures ScanInvariant(t, on, c + 1, ScanCell(st, t[c], on[c], c).value)
  {
    assert Crossings(t, on, c + 1) == Crossings(t, on, c) + (if SouthAt(t, on, c) then 1 else 0);
    assert Enclosed(t, on, c + 1)
        == Enclosed(t, on, c) + (if !on[c] && Crossings(t, on, c) % 2 == 1 then 1 else 0);
  }

  lemma {:induction false} ScanFollowsParity(t: seq<char>, on: seq<bool>, c: nat)
    requires |on| == |t| && c <= |t|
    requires forall j :: 0 <= j < c ==> Allowed(t, on, j)
    ensures ScanRow(t, on, c).Some? && ScanInvariant(t, on, c, ScanRow(t, on, c).value)
  {
    if c > 0 {
      ScanFollowsParity(t, on, c - 1);
      ScanStep(t, on, c - 1, ScanRow(t, on, c - 1).value);
    }
  }

  /** On a row crossed by a closed loop the scan never fails, and it counts exactly the off-path
      cells with an odd number of crossings to their left. */
  lemma RowCountsEnclosed(t: seq<char>, on: seq<bool>)
    requires |on| == |t| && WellFormedRow(t, on)
    ensures ScanRow(t, on, |t|).Some?
    ensures ScanRow(t, on, |t|).value.count == Enclosed(t, on, |t|)
  {
    ScanFollowsParity(t, on, |t|);
  }

  /** The enclosed cells of the first `rows` rows, by the parity rule. */
  function GridEnclosed(grid: seq<seq<char>>, startChar: char, path: set<Pos>, rows: nat): nat
    requires rows <= |grid|
  {
    if rows == 0 then 0
    else
      GridEnclosed(grid, startChar, path, rows - 1)
      + Enclosed(RowCells(grid, startChar, rows - 1), RowOnPath(path, rows - 1, |grid[rows - 1]|), |grid[rows - 1]|)
  }

  /** When the loop crosses every row as a closed loop does, the count of `part2` is the number of
      tiles enclosed by the parity rule. */
  lemma {:induction false} GridCountsEnclosed(grid: seq<seq<char>>, startChar: char, path: set<Pos>, rows: nat)
    requires rows <= |grid|
    requires forall r :: 0 <= r < rows ==>
      WellFormedRow(RowCells(grid, startChar, r), RowOnPath(path, r, |grid[r]|))
    ensures GridCount(grid, startChar, path, rows) == Some(GridEnclosed(grid, startChar, path, rows))
  {
    if rows > 0 {
      GridCountsEnclosed(grid, startChar, path, rows - 1);
      RowCountsEnclosed(RowCells(grid, startChar, rows - 1), RowOnPath(path, rows - 1, |grid[rows - 1]|));
    }
  }
}
