/** Day 11, "Cosmic Expansion": galaxies on a grid, every row and column without a galaxy widened
    by a factor, and the sum of the Manhattan distances between all pairs of galaxies. */
module CosmicExpansion {
  import opened Sorting

  /** A galaxy position (row, column); `isize` in the source, unbounded here. */
  type Galaxy = (int, int)

  /** A galaxy lies at row `g.0`, column `g.1` of the grid. */
  predicate IsGalaxy(grid: seq<seq<char>>, g: Galaxy)
  {
    0 <= g.0 < |grid| && 0 <= g.1 < |grid[g.0]| && grid[g.0][g.1] == '#'
  }

  /** Row-major order: an earlier row, or the same row and an earlier column. */
  predicate RowMajorBefore(g: Galaxy, h: Galaxy)
  {
    g.0 < h.0 || (g.0 == h.0 && g.1 < h.1)
  }

  /** The galaxies of row `r`, from left to right. */
  function RowGalaxies(r: int, row: seq<char>): (gs: seq<Galaxy>)
    ensures forall g :: g in gs <==> g.0 == r && 0 <= g.1 < |row| && row[g.1] == '#'
    ensures forall i, j :: 0 <= i < j < |gs| ==> gs[i].1 < gs[j].1
  {
    if row == [] then []
    else
      var init := RowGalaxies(r, row[..|row| - 1]);
      assert forall g :: g in init ==> g.1 < |row| - 1;
      init + (if row[|row| - 1] == '#' then [(r, |row| - 1)] else [])
  }

  /** `find_galaxies`: every position holding '#', in row-major order. */
  function FindGalaxies(grid: seq<seq<char>>): (gs: seq<Galaxy>)
    ensures forall g :: g in gs <==> IsGalaxy(grid, g)
    ensures forall i, j :: 0 <= i < j < |gs| ==> RowMajorBefore(gs[i], gs[j])
  {
    if grid == [] then []
    else
      var last := |grid| - 1;
      var init := FindGalaxies(grid[..last]);
      var row := RowGalaxies(last, grid[last]);
      assert forall g :: g in init ==> g.0 < last;
      assert forall g :: g in row ==> g.0 == last;
      assert forall g :: IsGalaxy(grid[..last], g) <==> IsGalaxy(grid, g) && g.0 < last;
      init + row
  }

  /** Which coordinate an expansion pass works on. */
  datatype Axis = Rows | Cols

  function Coord(g: Galaxy, axis: Axis): int
  {
    if axis == Rows then g.0 else g.1
  }

  function WithCoord(g: Galaxy, axis: Axis, v: int): Galaxy
  {
    if axis == Rows then (v, g.1) else (g.0, v)
  }

  /** The sort key of a pass (`sort_by_key(|g| g.0)` or `|g| g.1`). */
  function Key(axis: Axis): Galaxy -> int
  {
    g => Coord(g, axis)
  }

  /** The lines (rows or columns) that hold at least one galaxy. */
  function KeySet(s: seq<Galaxy>, axis: Axis): set<int>
  {
    set g | g in s :: Coord(g, axis)
  }

  /** The number of lines `w` with `lo <= w < hi` that hold no galaxy. */
  function EmptyBetween(lo: int, hi: int, lines: set<int>): nat
    decreases hi - lo
  {
    if hi <= lo then 0 else EmptyBetween(lo, hi - 1, lines) + (if hi - 1 in lines then 0 else 1)
  }

  /** Where line `v` ends up: every empty line from `lo` up to `v` is widened to `factor` lines. */
  function ShiftLine(v: int, lo: int, lines: set<int>, factor: int): int
  {
    v + (factor - 1) * EmptyBetween(lo, v, lines)
  }

  function ShiftGalaxy(g: Galaxy, axis: Axis, lo: int, lines: set<int>, factor: int): Galaxy
  {
    WithCoord(g, axis, ShiftLine(Coord(g, axis), lo, lines, factor))
  }

  /** Every galaxy moved along `axis`, each by the empty lines before it. */
  function ShiftAll(s: seq<Galaxy>, axis: Axis, lo: int, lines: set<int>, factor: int): seq<Galaxy>
  {
    seq(|s|, i requires 0 <= i < |s| => ShiftGalaxy(s[i], axis, lo, lines, factor))
  }

  /** The line the empty-line count starts from.  The loop starts with `last = -1`, so gaps are
      counted from line 0, or from the smallest line when that is negative. */
  function Floor(t: seq<Galaxy>, axis: Axis): int
  {
    if t == [] || Coord(t[0], axis) >= 0 then 0 else Coord(t[0], axis)
  }

  /** One half of `expand`: sort by the coordinate, then shift every galaxy by `factor - 1` times
      the number of empty lines below its original coordinate. */
  function Pass(s: seq<Galaxy>, axis: Axis, factor: int): seq<Galaxy>
  {
    var t := SortByKey(s, Key(axis));
    ShiftAll(t, axis, Floor(t, axis), KeySet(s, axis), factor)
  }

  /** `expand`: the row pass, then the column pass. */
  function Expanded(s: seq<Galaxy>, factor: int): seq<Galaxy>
  {
    Pass(Pass(s, Rows, factor), Cols, factor)
  }

  /** The intended expansion of galaxies with non-negative coordinates, galaxy by galaxy and in
      the original order: rows and columns shift by the empty lines of the original grid. */
  function ShiftEach(s: seq<Galaxy>, factor: int): seq<Galaxy>
  {
    ShiftAll(ShiftAll(s, Rows, 0, KeySet(s, Rows), factor), Cols, 0, KeySet(s, Cols), factor)
  }

  /** Counting empty lines over two adjacent ranges adds up. */
  lemma {:induction false} EmptySplit(lo: int, mid: int, hi: int, lines: set<int>)
    requires lo <= mid <= hi
    ensures EmptyBetween(lo, hi, lines) == EmptyBetween(lo, mid, lines) + EmptyBetween(mid, hi, lines)
    decreases hi - mid
  {
    if hi > mid {
      EmptySplit(lo, mid, hi - 1, lines);
    }
  }

  /** A range without galaxies is empty line by line. */
  lemma {:induction false} NoLines(lo: int, hi: int, lines: set<int>)
    requires forall x :: x in lines ==> x < lo || x >= hi
    ensures EmptyBetween(lo, hi, lines) == if hi > lo then hi - lo else 0
    decreases hi - lo
  {
    if hi > lo {
      NoLines(lo, hi - 1, lines);
    }
  }

  /** One step of the pass loop: the running expansion after galaxy `i` of the sorted slice is the
      number of empty lines below its coordinate. */
  lemma StepExpansion(t: seq<Galaxy>, axis: Axis, i: nat, lines: set<int>)
    requires SortedBy(t, Key(axis)) && lines == KeySet(t, axis) && i < |t|
    ensures var c := Coord(t[i], axis);
      if i == 0 then EmptyBetween(Floor(t, axis), c, lines) == (if c > 0 then c else 0)
      else
        var p := Coord(t[i - 1], axis);
        Floor(t, axis) <= p <= c &&
        EmptyBetween(Floor(t, axis), c, lines) ==
          EmptyBetween(Floor(t, axis), p, lines) + (if c > p + 1 then c - (p + 1) else 0)
  {
    var c := Coord(t[i], axis);
    var lo := Floor(t, axis);
    forall k | 0 <= k < |t| ensures (k <= i ==> Coord(t[k], axis) <= c) && (k >= i ==> Coord(t[k], axis) >= c) {
      assert k < i ==> Key(axis)(t[k]) <= Key(axis)(t[i]);
      assert k > i ==> Key(axis)(t[i]) <= Key(axis)(t[k]);
    }
    if i == 0 {
      NoLines(lo, c, lines);
    } else {
      var p := Coord(t[i - 1], axis);
      forall k | 0 <= k < |t| ensures Coord(t[k], axis) <= p || Coord(t[k], axis) >= c {
        assert k < i ==> Key(axis)(t[k]) <= Key(axis)(t[i - 1]);
      }
      assert Key(axis)(t[0]) <= Key(axis)(t[i - 1]);
      EmptySplit(lo, p, c, lines);
      if c > p {
        EmptySplit(p, p + 1, c, lines);
        assert p in lines;
        NoLines(p + 1, c, lines);
      }
    }
  }

  /** The loop body's update of the running expansion keeps it equal to the number of empty lines
      below the current galaxy's original coordinate. */
  lemma NextExpansion(t: seq<Galaxy>, axis: Axis, i: nat, lines: set<int>, last: int, expansion: int)
    requires SortedBy(t, Key(axis)) && lines == KeySet(t, axis) && i < |t|
    requires i == 0 ==> last == -1 && expansion == 0
    requires i > 0 ==> last == Coord(t[i - 1], axis) && expansion == EmptyBetween(Floor(t, axis), last, lines)
    ensures var c := Coord(t[i], axis);
      (if c > last + 1 then expansion + (c - (last + 1)) else expansion) == EmptyBetween(Floor(t, axis), c, lines)
  {
    StepExpansion(t, axis, i, lines);
  }

  /** The lines holding galaxies do not depend on the order of the galaxies. */
  lemma KeySetPermutation(a: seq<Galaxy>, b: seq<Galaxy>, axis: Axis)
    requires multiset(a) == multiset(b)
    ensures KeySet(a, axis) == KeySet(b, axis)
  {
    assert forall g :: g in a <==> g in multiset(a);
    assert forall g :: g in b <==> g in multiset(b);
  }

  /** One pass of `expand` on the slice `a`, as the source writes it twice: sort by the
      coordinate, then shift the sorted slice. */
  method ExpandAxis(a: array<Galaxy>, axis: Axis, factor: int)
    modifies a
    ensures a[..] == Pass(old(a[..]), axis, factor)
  {
    ghost var s := a[..];
    SortInPlace(a, Key(axis));
    KeySetPermutation(s, a[..], axis);
    ShiftSorted(a, axis, factor, Floor(a[..], axis), KeySet(s, axis));
  }

  /** The loop of a pass over the sorted slice: keep the last original coordinate and the
      running expansion, and move each galaxy by `expansion * (factor - 1)`. */
  method ShiftSorted(a: array<Galaxy>, axis: Axis, factor: int, ghost lo: int, ghost lines: set<int>)
    requires SortedBy(a[..], Key(axis)) && lines == KeySet(a[..], axis) && lo == Floor(a[..], axis)
    modifies a
    ensures a[..] == ShiftAll(old(a[..]), axis, lo, lines, factor)
  {
    ghost var t := a[..];
    var last := -1;
    var expansion := 0;
    for i := 0 to a.Length
      invariant forall j :: 0 <= j < i ==> a[j] == ShiftGalaxy(t[j], axis, lo, lines, factor)
      invariant forall j :: i <= j < a.Length ==> a[j] == t[j]
      invariant i == 0 ==> last == -1 && expansion == 0
      invariant i > 0 ==> last == Coord(t[i - 1], axis) && expansion == EmptyBetween(lo, last, lines)
    {
      var c := Coord(a[i], axis);
      NextExpansion(t, axis, i, lines, last, expansion);
      if c > last + 1 {
        expansion := expansion + (c - (last + 1));
      }
      last := c;
      Commute(expansion, factor - 1);
      a[i] := WithCoord(a[i], axis, c + expansion * (factor - 1));
      assert a[i] == ShiftGalaxy(t[i], axis, lo, lines, factor);
    }
  }

  /** `expand`: the rows, then the columns. */
  method Expand(a: array<Galaxy>, factor: int)
    modifies a
    ensures a[..] == Expanded(old(a[..]), factor)
  {
    ExpandAxis(a, Rows, factor);
    ExpandAxis(a, Cols, factor);
  }

  /** A sequence is its element `j` and the rest. */
  lemma TakeOut<T>(s: seq<T>, j: nat)
    requires j < |s|
    ensures multiset(s) == multiset(s[..j] + s[j + 1..]) + multiset{s[j]}
  {
    assert s == s[..j] + [s[j]] + s[j + 1..];
  }

  /** Taking the same element out of two permutations of each other leaves permutations. */
  lemma RemoveOne<T>(a: seq<T>, b: seq<T>, j: nat)
    requires multiset(a) == multiset(b) && a != [] && j < |b| && b[j] == a[|a| - 1]
    ensures multiset(a[..|a| - 1]) == multiset(b[..j] + b[j + 1..])
  {
    TakeOut(a, |a| - 1);
    assert a[..|a| - 1] + a[|a|..] == a[..|a| - 1];
    TakeOut(b, j);
    assert multiset(a[..|a| - 1]) == multiset(a) - multiset{b[j]};
    assert multiset(b[..j] + b[j + 1..]) == multiset(b) - multiset{b[j]};
  }

  /** Taking galaxy `j` out before or after shifting gives the same galaxies. */
  lemma ShiftAllTakeOut(s: seq<Galaxy>, j: nat, axis: Axis, lo: int, lines: set<int>, factor: int)
    requires j < |s|
    ensures multiset(ShiftAll(s, axis, lo, lines, factor)) ==
      multiset(ShiftAll(s[..j] + s[j + 1..], axis, lo, lines, factor)) + multiset{ShiftGalaxy(s[j], axis, lo, lines, factor)}
  {
    var r := ShiftAll(s, axis, lo, lines, factor);
    TakeOut(r, j);
    assert r[..j] + r[j + 1..] == ShiftAll(s[..j] + s[j + 1..], axis, lo, lines, factor);
  }

  /** Shifting commutes with reordering: the shifted galaxies of a permutation are a permutation
      of the shifted galaxies. */
  lemma {:induction false} ShiftAllPermutation(a: seq<Galaxy>, b: seq<Galaxy>, axis: Axis, lo: int, lines: set<int>, factor: int)
    requires multiset(a) == multiset(b)
    ensures multiset(ShiftAll(a, axis, lo, lines, factor)) == multiset(ShiftAll(b, axis, lo, lines, factor))
    decreases |a|
  {
    if a == [] {
      assert b == [];
    } else {
      var a' := a[..|a| - 1];
      assert a[|a| - 1] in multiset(b);
      var j :| 0 <= j < |b| && b[j] == a[|a| - 1];
      RemoveOne(a, b, j);
      ShiftAllPermutation(a', b[..j] + b[j + 1..], axis, lo, lines, factor);
      ShiftAllTakeOut(a, |a| - 1, axis, lo, lines, factor);
      assert a[..|a| - 1] + a[|a|..] == a';
      ShiftAllTakeOut(b, j, axis, lo, lines, factor);
    }
  }

  /** A shift along one axis leaves the other coordinate of every galaxy alone. */
  lemma ShiftKeepsOther(s: seq<Galaxy>, axis: Axis, other: Axis, lo: int, lines: set<int>, factor: int)
    requires other != axis
    ensures KeySet(ShiftAll(s, axis, lo, lines, factor), other) == KeySet(s, other)
  {
    var r := ShiftAll(s, axis, lo, lines, factor);
    forall v | v in KeySet(s, other) ensures v in KeySet(r, other) {
      var k :| 0 <= k < |s| && Coord(s[k], other) == v;
      assert r[k] in r;
    }
    forall v | v in KeySet(r, other) ensures v in KeySet(s, other) {
      var k :| 0 <= k < |r| && Coord(r[k], other) == v;
      assert s[k] in s;
    }
  }

  /** A pass on galaxies with non-negative coordinates is the galaxy-by-galaxy shift, up to order. */
  lemma PassIsShift(s: seq<Galaxy>, axis: Axis, factor: int)
    requires forall g :: g in s ==> Coord(g, axis) >= 0
    ensures multiset(Pass(s, axis, factor)) == multiset(ShiftAll(s, axis, 0, KeySet(s, axis), factor))
  {
    var t := SortByKey(s, Key(axis));
    if t != [] {
      assert t[0] in multiset(s);
    }
    ShiftAllPermutation(t, s, axis, 0, KeySet(s, axis), factor);
  }

  /** `expand` moves every galaxy by `factor - 1` times the number of empty rows above it and the
      number of empty columns left of it, counted in the original grid; only the order of the
      slice changes. */
  lemma ExpandedIsShiftEach(s: seq<Galaxy>, factor: int)
    requires forall g :: g in s ==> g.0 >= 0 && g.1 >= 0
    ensures multiset(Expanded(s, factor)) == multiset(ShiftEach(s, factor))
  {
    var p1 := Pass(s, Rows, factor);
    var r1 := ShiftAll(s, Rows, 0, KeySet(s, Rows), factor);
    PassIsShift(s, Rows, factor);
    forall g | g in p1 ensures g.1 >= 0 {
      assert g in multiset(r1);
      var k :| 0 <= k < |r1| && r1[k] == g;
      assert s[k] in s;
    }
    PassIsShift(p1, Cols, factor);
    KeySetPermutation(p1, r1, Cols);
    ShiftKeepsOther(s, Rows, Cols, 0, KeySet(s, Rows), factor);
    ShiftAllPermutation(p1, r1, Cols, 0, KeySet(s, Cols), factor);
  }

  lemma ShiftAllIdentity(s: seq<Galaxy>, axis: Axis, lo: int, lines: set<int>)
    ensures ShiftAll(s, axis, lo, lines, 1) == s
  {
  }

  /** With factor 1 nothing moves: `expand` only reorders the galaxies. */
  lemma ExpandFactorOne(s: seq<Galaxy>)
    ensures multiset(Expanded(s, 1)) == multiset(s)
    ensures ShiftEach(s, 1) == s
  {
    var t1 := SortByKey(s, Key(Rows));
    ShiftAllIdentity(t1, Rows, Floor(t1, Rows), KeySet(s, Rows));
    var t2 := SortByKey(t1, Key(Cols));
    ShiftAllIdentity(t2, Cols, Floor(t2, Cols), KeySet(t1, Cols));
    ShiftAllIdentity(s, Rows, 0, KeySet(s, Rows));
    ShiftAllIdentity(s, Cols, 0, KeySet(s, Cols));
  }

  /** Two lines move apart by their distance plus `factor - 1` per empty line between them. */
  lemma ShiftDifference(u: int, v: int, lo: int, lines: set<int>, factor: int)
    requires lo <= u <= v
    ensures ShiftLine(v, lo, lines, factor) - ShiftLine(u, lo, lines, factor) ==
      (v - u) + (factor - 1) * EmptyBetween(u, v, lines)
  {
    EmptySplit(lo, u, v, lines);
    Distribute(factor - 1, EmptyBetween(lo, u, lines), EmptyBetween(u, v, lines));
  }

  /** Expansion keeps the order of lines: strictly ordered lines stay strictly ordered and equal
      lines stay equal. */
  lemma ShiftMonotone(u: int, v: int, lo: int, lines: set<int>, factor: int)
    requires lo <= u && lo <= v && factor >= 1
    ensures u < v <==> ShiftLine(u, lo, lines, factor) < ShiftLine(v, lo, lines, factor)
    ensures u == v <==> ShiftLine(u, lo, lines, factor) == ShiftLine(v, lo, lines, factor)
  {
    if u <= v {
      ShiftDifference(u, v, lo, lines, factor);
      NonNegativeProduct(factor - 1, EmptyBetween(u, v, lines));
    } else {
      ShiftDifference(v, u, lo, lines, factor);
      NonNegativeProduct(factor - 1, EmptyBetween(v, u, lines));
    }
  }

  lemma Commute(x: int, y: int)
    ensures x * y == y * x
  {
  }

  lemma Distribute(k: int, a: int, b: int)
    ensures k * (a + b) == k * a + k * b
  {
  }

  lemma NonNegativeProduct(x: int, y: int)
    requires x >= 0 && y >= 0
    ensures x * y >= 0
  {
  }

  function Abs(x: int): nat
  {
    if x < 0 then -x else x
  }

  function Min(x: int, y: int): int
  {
    if x < y then x else y
  }

  function Max(x: int, y: int): int
  {
    if x < y then y else x
  }

  /** `g1.0.abs_diff(g2.0) + g1.1.abs_diff(g2.1)`: the Manhattan distance. */
  function Dist(g: Galaxy, h: Galaxy): nat
  {
    Abs(g.0 - h.0) + Abs(g.1 - h.1)
  }

  /** The distance along one axis after expansion. */
  lemma AxisDistance(u: int, v: int, lines: set<int>, factor: int)
    requires u >= 0 && v >= 0 && factor >= 1
    ensures Abs(ShiftLine(u, 0, lines, factor) - ShiftLine(v, 0, lines, factor)) ==
      Abs(u - v) + (factor - 1) * EmptyBetween(Min(u, v), Max(u, v), lines)
  {
    ShiftDifference(Min(u, v), Max(u, v), 0, lines, factor);
    NonNegativeProduct(factor - 1, EmptyBetween(Min(u, v), Max(u, v), lines));
  }

  /** The distance of two galaxies after expansion is their original distance plus `factor - 1`
      for every empty row and every empty column between them. */
  lemma DistanceAfterExpansion(s: seq<Galaxy>, factor: int, i: nat, j: nat)
    requires forall g :: g in s ==> g.0 >= 0 && g.1 >= 0
    requires factor >= 1 && i < |s| && j < |s|
    ensures Dist(ShiftEach(s, factor)[i], ShiftEach(s, factor)[j]) ==
      Dist(s[i], s[j]) + (factor - 1) * (
        EmptyBetween(Min(s[i].0, s[j].0), Max(s[i].0, s[j].0), KeySet(s, Rows)) +
        EmptyBetween(Min(s[i].1, s[j].1), Max(s[i].1, s[j].1), KeySet(s, Cols)))
  {
    assert s[i] in s && s[j] in s;
    var rows, cols := KeySet(s, Rows), KeySet(s, Cols);
    AxisDistance(s[i].0, s[j].0, rows, factor);
    AxisDistance(s[i].1, s[j].1, cols, factor);
    var a := EmptyBetween(Min(s[i].0, s[j].0), Max(s[i].0, s[j].0), rows);
    var b := EmptyBetween(Min(s[i].1, s[j].1), Max(s[i].1, s[j].1), cols);
    Distribute(factor - 1, a, b);
  }

  /** The distances from `x` to every galaxy of `s`, summed. */
  function DistSum(x: Galaxy, s: seq<Galaxy>): nat
  {
    if s == [] then 0 else DistSum(x, s[..|s| - 1]) + Dist(x, s[|s| - 1])
  }

  /** The sum over `tuple_combinations`: every unordered pair of galaxies once. */
  function PairSum(s: seq<Galaxy>): nat
  {
    if s == [] then 0 else PairSum(s[..|s| - 1]) + DistSum(s[|s| - 1], s[..|s| - 1])
  }

  lemma {:induction false} DistSumRemove(x: Galaxy, s: seq<Galaxy>, j: nat)
    requires j < |s|
    ensures DistSum(x, s) == DistSum(x, s[..j] + s[j + 1..]) + Dist(x, s[j])
  {
    var t := s[..|s| - 1];
    if j == |s| - 1 {
      assert s[..j] + s[j + 1..] == t;
    } else {
      DistSumRemove(x, t, j);
      var rest := s[..j] + s[j + 1..];
      assert rest[..|rest| - 1] == t[..j] + t[j + 1..];
      assert rest[|rest| - 1] == s[|s| - 1];
    }
  }

  lemma {:induction false} PairSumRemove(s: seq<Galaxy>, j: nat)
    requires j < |s|
    ensures PairSum(s) == PairSum(s[..j] + s[j + 1..]) + DistSum(s[j], s[..j] + s[j + 1..])
  {
    var t := s[..|s| - 1];
    if j == |s| - 1 {
      assert s[..j] + s[j + 1..] == t;
    } else {
      var y := s[|s| - 1];
      PairSumRemove(t, j);
      DistSumRemove(y, t, j);
      var rest := s[..j] + s[j + 1..];
      assert rest[..|rest| - 1] == t[..j] + t[j + 1..];
      assert rest[|rest| - 1] == y;
      assert Dist(y, t[j]) == Dist(t[j], y);
    }
  }

  /** The sum of distances from `x` does not depend on the order of the galaxies. */
  lemma {:induction false} DistSumPermutation(x: Galaxy, a: seq<Galaxy>, b: seq<Galaxy>)
    requires multiset(a) == multiset(b)
    ensures DistSum(x, a) == DistSum(x, b)
    decreases |a|
  {
    if a == [] {
      assert b == [];
    } else {
      var y := a[|a| - 1];
      var a' := a[..|a| - 1];
      assert a == a' + [y];
      assert y in multiset(b);
      var j :| 0 <= j < |b| && b[j] == y;
      var b' := b[..j] + b[j + 1..];
      RemoveOne(a, b, j);
      DistSumPermutation(x, a', b');
      DistSumRemove(x, b, j);
    }
  }

  /** The sum over all pairs does not depend on the order of the galaxies, so neither the sorts
      inside `expand` nor their stability change the answer. */
  lemma {:induction false} PairSumPermutation(a: seq<Galaxy>, b: seq<Galaxy>)
    requires multiset(a) == multiset(b)
    ensures PairSum(a) == PairSum(b)
    decreases |a|
  {
    if a == [] {
      assert b == [];
    } else {
      var y := a[|a| - 1];
      var a' := a[..|a| - 1];
      assert a == a' + [y];
      assert y in multiset(b);
      var j :| 0 <= j < |b| && b[j] == y;
      var b' := b[..j] + b[j + 1..];
      RemoveOne(a, b, j);
      PairSumPermutation(a', b');
      DistSumPermutation(y, a', b');
      PairSumRemove(b, j);
    }
  }

  /** `part1` and `part2` with the factor as a parameter: find the galaxies, expand them in place
      and sum the distances of all pairs. */
  method SumOfDistances(grid: seq<seq<char>>, factor: int) returns (total: nat)
    ensures total == PairSum(ShiftEach(FindGalaxies(grid), factor))
  {
    var gs := FindGalaxies(grid);
    var galaxies := new Galaxy[|gs|](i requires 0 <= i < |gs| => gs[i]);
    assert galaxies[..] == gs;
    Expand(galaxies, factor);
    total := PairSum(galaxies[..]);
    ExpandedIsShiftEach(gs, factor);
    PairSumPermutation(galaxies[..], ShiftEach(gs, factor));
  }

  /** `part1`: every empty row and column doubled. */
  method Part1(grid: seq<seq<char>>) returns (total: nat)
    ensures total == PairSum(ShiftEach(FindGalaxies(grid), 2))
  {
    total := SumOfDistances(grid, 2);
  }

  /** `part2`: every empty row and column replaced by a million. */
  method Part2(grid: seq<seq<char>>) returns (total: nat)
    ensures total == PairSum(ShiftEach(FindGalaxies(grid), 1000000))
  {
    total := SumOfDistances(grid, 1000000);
  }
}
