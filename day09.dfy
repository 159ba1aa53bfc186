/** Day 9, "Mirage Maintenance": extrapolating a sequence one step forwards and one step backwards
    from its pyramid of repeated differences. */
module Mirage {

  /** Adjacent differences, `windows(2).map(|w| w[1] - w[0])`: one element shorter than `s`. */
  function Diffs(s: seq<int>): seq<int>
  {
    if |s| == 0 then [] else seq(|s| - 1, k requires 0 <= k < |s| - 1 => s[k + 1] - s[k])
  }

  predicate AllZero(s: seq<int>)
  {
    forall k :: 0 <= k < |s| ==> s[k] == 0
  }

  function Reverse(s: seq<int>): seq<int>
  {
    seq(|s|, k requires 0 <= k < |s| => s[|s| - 1 - k])
  }

  function Negate(s: seq<int>): seq<int>
  {
    seq(|s|, k requires 0 <= k < |s| => -s[k])
  }

  /** The value `calc_next` appends: the sum of the last elements of every row of the pyramid above
      its all-zero bottom row. */
  function Extrapolate(s: seq<int>): int
    decreases |s|
  {
    if AllZero(s) then 0 else s[|s| - 1] + Extrapolate(Diffs(s))
  }

  /** The value `calc_prev` prepends: the alternating sum of the first elements of the rows. */
  function ExtrapolateBack(s: seq<int>): int
    decreases |s|
  {
    if AllZero(s) then 0 else s[0] - ExtrapolateBack(Diffs(s))
  }

  /** The pyramid rows above the bottom one: each the difference row of the one before, none of
      them all zero. */
  ghost predicate DiffChain(p: seq<seq<int>>)
  {
    forall k :: 0 <= k < |p| - 1 ==> p[k + 1] == Diffs(p[k]) && !AllZero(p[k])
  }

  /** The `while` loop of `calc_next`/`calc_prev`: difference rows are pushed until the last row is
      all zero (an empty row counts as all zero). */
  method BuildPyramid(row: seq<int>) returns (pyramid: seq<seq<int>>)
    ensures |pyramid| >= 1 && pyramid[0] == row
    ensures DiffChain(pyramid) && AllZero(pyramid[|pyramid| - 1])
  {
    pyramid := [row];
    while !AllZero(pyramid[|pyramid| - 1])
      invariant |pyramid| >= 1 && pyramid[0] == row
      invariant DiffChain(pyramid)
      decreases |pyramid[|pyramid| - 1]|
    {
      var last := pyramid[|pyramid| - 1];
      pyramid := pyramid + [Diffs(last)];
    }
  }

  /** `calc_next`: build the pyramid, append 0 to its bottom row and, bottom-up, to every other row
      its last element plus the new last element of the row below. */
  method CalcNext(row: seq<int>) returns (r: int)
    ensures r == Extrapolate(row)
  {
    var pyramid := BuildPyramid(row);
    ghost var p := pyramid;
    var n := |pyramid|;
    var i := n;
    while i > 0
      invariant 0 <= i <= n && |pyramid| == n
      invariant forall k :: 0 <= k < i ==> pyramid[k] == p[k]
      invariant forall k :: i <= k < n ==> pyramid[k] == p[k] + [Extrapolate(p[k])]
    {
      i := i - 1;
      if i == n - 1 {
        pyramid := pyramid[i := pyramid[i] + [0]];
      } else {
        var sum := pyramid[i][|pyramid[i]| - 1] + pyramid[i + 1][|pyramid[i + 1]| - 1];
        pyramid := pyramid[i := pyramid[i] + [sum]];
      }
    }
    r := pyramid[0][|pyramid[0]| - 1];
  }

  /** `calc_prev`: the same pyramid, extended at the front: 0 on the bottom row, and on every other
      row its first element minus the new first element of the row below. */
  method CalcPrev(row: seq<int>) returns (r: int)
    ensures r == ExtrapolateBack(row)
  {
    var pyramid := BuildPyramid(row);
    ghost var p := pyramid;
    var n := |pyramid|;
    var i := n;
    while i > 0
      invariant 0 <= i <= n && |pyramid| == n
      invariant forall k :: 0 <= k < i ==> pyramid[k] == p[k]
      invariant forall k :: i <= k < n ==> pyramid[k] == [ExtrapolateBack(p[k])] + p[k]
    {
      i := i - 1;
      if i == n - 1 {
        pyramid := pyramid[i := [0] + pyramid[i]];
      } else {
        var sum := pyramid[i][0] - pyramid[i + 1][0];
        pyramid := pyramid[i := [sum] + pyramid[i]];
      }
    }
    r := pyramid[0][0];
  }

  /** Appending `x` to a non-empty row appends `x` minus the old last element to its differences. */
  lemma DiffsAppend(s: seq<int>, x: int)
    requires |s| > 0
    ensures Diffs(s + [x]) == Diffs(s) + [x - s[|s| - 1]]
  {
    var f := s + [x];
    assert |Diffs(f)| == |s|;
    forall k | 0 <= k < |s| ensures Diffs(f)[k] == (Diffs(s) + [x - s[|s| - 1]])[k] {
      assert f[k + 1] == (if k + 1 < |s| then s[k + 1] else x) && f[k] == s[k];
    }
  }

  /** Prepending `x` to a non-empty row prepends the first element minus `x` to its differences. */
  lemma DiffsPrepend(s: seq<int>, x: int)
    requires |s| > 0
    ensures Diffs([x] + s) == [s[0] - x] + Diffs(s)
  {
    var b := [x] + s;
    assert |Diffs(b)| == |s|;
    forall k | 0 <= k < |s| ensures Diffs(b)[k] == ([s[0] - x] + Diffs(s))[k] {
      assert b[k + 1] == s[k] && b[k] == (if k == 0 then x else s[k - 1]);
    }
  }

  /** The extended row continues the pattern: the difference row of the extended row is the
      difference row extended in the same way. */
  lemma ExtendedDiffs(s: seq<int>)
    requires !AllZero(s)
    ensures Diffs(s + [Extrapolate(s)]) == Diffs(s) + [Extrapolate(Diffs(s))]
    ensures Diffs([ExtrapolateBack(s)] + s) == [ExtrapolateBack(Diffs(s))] + Diffs(s)
  {
    assert Extrapolate(s) - s[|s| - 1] == Extrapolate(Diffs(s));
    DiffsAppend(s, Extrapolate(s));
    assert s[0] - ExtrapolateBack(s) == ExtrapolateBack(Diffs(s));
    DiffsPrepend(s, ExtrapolateBack(s));
  }

  /** A constant row continues with the same constant in both directions; an empty row gives 0. */
  lemma ConstantRow(c: int, n: nat)
    ensures var s := seq(n, k => c);
      Extrapolate(s) == (if n == 0 then 0 else c) && ExtrapolateBack(s) == (if n == 0 then 0 else c)
  {
    var s := seq(n, k => c);
    if n > 0 && c != 0 {
      assert s[0] != 0;
      assert AllZero(Diffs(s));
    }
  }

  lemma DiffsReverse(s: seq<int>)
    ensures Diffs(Reverse(s)) == Negate(Reverse(Diffs(s)))
  {
    if |s| > 0 {
      var a, b := Diffs(Reverse(s)), Negate(Reverse(Diffs(s)));
      assert |a| == |b| == |s| - 1;
      forall k | 0 <= k < |s| - 1 ensures a[k] == b[k] {
        assert a[k] == Reverse(s)[k + 1] - Reverse(s)[k];
        assert Reverse(s)[k + 1] == s[|s| - 2 - k] && Reverse(s)[k] == s[|s| - 1 - k];
        assert b[k] == -Diffs(s)[|s| - 2 - k];
      }
    }
  }

  lemma DiffsNegate(s: seq<int>)
    ensures Diffs(Negate(s)) == Negate(Diffs(s))
  {
  }

  lemma {:induction false} ExtrapolateNegate(s: seq<int>)
    ensures Extrapolate(Negate(s)) == -Extrapolate(s)
    decreases |s|
  {
    assert AllZero(Negate(s)) <==> AllZero(s) by {
      assert forall k :: 0 <= k < |s| ==> Negate(s)[k] == -s[k];
    }
    if !AllZero(s) {
      DiffsNegate(s);
      ExtrapolateNegate(Diffs(s));
    }
  }

  /** Extrapolating backwards is extrapolating the reversed row forwards. */
  lemma {:induction false} BackIsReversedForward(s: seq<int>)
    ensures ExtrapolateBack(s) == Extrapolate(Reverse(s))
    decreases |s|
  {
    assert AllZero(Reverse(s)) <==> AllZero(s) by {
      assert forall k :: 0 <= k < |s| ==> Reverse(s)[|s| - 1 - k] == s[k];
    }
    if !AllZero(s) {
      BackIsReversedForward(Diffs(s));
      DiffsReverse(s);
      ExtrapolateNegate(Reverse(Diffs(s)));
    }
  }

  function SumNext(rows: seq<seq<int>>): int
  {
    if rows == [] then 0 else SumNext(rows[..|rows| - 1]) + Extrapolate(rows[|rows| - 1])
  }

  function SumPrev(rows: seq<seq<int>>): int
  {
    if rows == [] then 0 else SumPrev(rows[..|rows| - 1]) + ExtrapolateBack(rows[|rows| - 1])
  }

  /** `part1`: the sum of the forward extrapolations. */
  method Part1(rows: seq<seq<int>>) returns (total: int)
    ensures total == SumNext(rows)
  {
    total := 0;
    for i := 0 to |rows|
      invariant total == SumNext(rows[..i])
    {
      var next := CalcNext(rows[i]);
      assert rows[..i + 1][..i] == rows[..i];
      total := total + next;
    }
    assert rows[..|rows|] == rows;
  }

  /** `part2`: the sum of the backward extrapolations. */
  method Part2(rows: seq<seq<int>>) returns (total: int)
    ensures total == SumPrev(rows)
  {
    total := 0;
    for i := 0 to |rows|
      invariant total == SumPrev(rows[..i])
    {
      var prev := CalcPrev(rows[i]);
      assert rows[..i + 1][..i] == rows[..i];
      total := total + prev;
    }
    assert rows[..|rows|] == rows;
  }

  /** Part 2 is part 1 on the reversed rows. */
  lemma {:induction false} Part2IsReversedPart1(rows: seq<seq<int>>)
    ensures SumPrev(rows) == SumNext(seq(|rows|, i requires 0 <= i < |rows| => Reverse(rows[i])))
  {
    if rows != [] {
      var init := rows[..|rows| - 1];
      Part2IsReversedPart1(init);
      BackIsReversedForward(rows[|rows| - 1]);
      var rev := seq(|rows|, i requires 0 <= i < |rows| => Reverse(rows[i]));
      assert rev[..|rows| - 1] == seq(|init|, i requires 0 <= i < |init| => Reverse(init[i]));
    }
  }
}
