/** Day 12, hot springs: counting the arrangements of damaged springs in a row (day12/src/lib.rs).

    `PlaceGroups` and `ScanFrom` are the search of `place_groups` without its memo table: the
    first group is tried at every start offset up to the space bound, and the scan stops right
    after the first '#'.  `PlaceGroupsMemo` is the Rust function itself, with the memo table as a
    two-dimensional array indexed by the lengths of the remaining row and group list.  Both are
    proved equal to the reference count `Ways` of module SpringArrangements. */
module HotSprings {
  import opened Wrappers
  import opened SpringArrangements

  /** One line of the input: the cells and the group lengths. */
  datatype Row = Row(fields: seq<char>, desc: seq<nat>)

  /** What the search demands of its input: positive groups, and room for them in the row
      (otherwise `fields.len() - min_required_space` underflows). */
  predicate Feasible(fields: seq<char>, desc: seq<nat>)
  {
    Positive(desc) && (desc != [] ==> |fields| >= MinSpace(desc))
  }

  /** `can_place_group`: a group of `group` cells fits at the head of `fields`. */
  function CanPlaceGroup(fields: seq<char>, group: nat): (ok: bool)
    ensures ok <==> && |fields| >= group
                    && (forall i :: 0 <= i < group ==> fields[i] == '#' || fields[i] == '?')
                    && (|fields| > group ==> fields[group] == '.' || fields[group] == '?')
    ensures ok == Placeable(fields, group)
  {
    var canPlace := |fields| >= group && forall i :: 0 <= i < group ==> fields[i] == '?' || fields[i] == '#';
    if canPlace then
      if |fields| > group then fields[group] == '.' || fields[group] == '?' else true
    else
      false
  }

  /** All cells are operational ('.'). */
  predicate AllOperational(fields: seq<char>)
  {
    forall k :: 0 <= k < |fields| ==> fields[k] == '.'
  }

  /** The recursion of `place_groups` without the memo table.  Without groups there is at most one
      arrangement, and none while a damaged cell remains. */
  function PlaceGroups(fields: seq<char>, desc: seq<nat>): (r: nat)
    requires Feasible(fields, desc)
    ensures desc == [] ==> r <= 1
    ensures desc == [] && '#' in fields ==> r == 0
    ensures desc == [] && AllOperational(fields) ==> r == 1
    decreases |desc|, 1
  {
    if desc == [] then
      if forall i :: 0 <= i < |fields| ==> fields[i] == '?' || fields[i] == '.' then 1 else 0
    else
      ScanFrom(fields, desc, 0)
  }

  /** What the first group contributes when it starts at offset `i`: the count for the rest of
      the row behind it, 1 when it ends the row, 0 when it does not fit. */
  function StartAt(fields: seq<char>, desc: seq<nat>, i: nat): (r: nat)
    requires Feasible(fields, desc) && desc != []
    requires i <= |fields| - MinSpace(desc)
    decreases |desc|, 0, 0
  {
    MinSpaceCons(desc);
    PositiveSuffix(desc, 1);
    var g := desc[0];
    if CanPlaceGroup(fields[i..], g) then
      if |fields| > i + g then PlaceGroups(fields[i + g + 1..], desc[1..]) else 1
    else 0
  }

  /** The contributions of the start offsets `i`, `i + 1`, ... of the first group, up to the space
      bound, stopping after the first offset that holds a '#'. */
  function ScanFrom(fields: seq<char>, desc: seq<nat>, i: nat): (r: nat)
    requires Feasible(fields, desc) && desc != []
    requires i <= |fields| - MinSpace(desc) + 1
    decreases |desc|, 0, |fields| - i + 1
  {
    if i > |fields| - MinSpace(desc) then 0
    else StartAt(fields, desc, i) + if fields[i] == '#' then 0 else ScanFrom(fields, desc, i + 1)
  }

  /** Groups never fit into a row of operational cells. */
  lemma NoGroupsInOperational(fields: seq<char>, desc: seq<nat>)
    requires Feasible(fields, desc) && desc != [] && AllOperational(fields)
    ensures PlaceGroups(fields, desc) == 0
  {
    ScanOperational(fields, desc, 0);
  }

  lemma {:induction false} ScanOperational(fields: seq<char>, desc: seq<nat>, i: nat)
    requires Feasible(fields, desc) && desc != [] && AllOperational(fields)
    requires i <= |fields| - MinSpace(desc) + 1
    ensures ScanFrom(fields, desc, i) == 0
    decreases |fields| - i
  {
    if i <= |fields| - MinSpace(desc) {
      MinSpaceCons(desc);
      assert !CanPlaceGroup(fields[i..], desc[0]) by {
        assert fields[i..][0] == fields[i];
      }
      ScanOperational(fields, desc, i + 1);
    }
  }

  lemma PositiveSuffix(desc: seq<nat>, k: nat)
    requires Positive(desc) && k <= |desc|
    ensures Positive(desc[k..])
  {
    forall i | 0 <= i < |desc[k..]| ensures desc[k..][i] >= 1 {
      assert desc[k..][i] == desc[k + i];
    }
  }

  lemma WellFormedSuffix(fields: seq<char>, k: nat)
    requires WellFormed(fields) && k <= |fields|
    ensures WellFormed(fields[k..])
  {
    forall i | 0 <= i < |fields[k..]| ensures fields[k..][i] == '#' || fields[k..][i] == '.' || fields[k..][i] == '?' {
      assert fields[k..][i] == fields[k + i];
    }
  }

  /** The search counts exactly the arrangements of the row. */
  lemma {:induction false} PlaceGroupsCorrect(fields: seq<char>, desc: seq<nat>)
    requires WellFormed(fields) && Feasible(fields, desc)
    ensures PlaceGroups(fields, desc) == Ways(fields, desc)
    decreases |desc|, 1
  {
    WaysIsPending(fields, desc);
    if desc == [] {
      PendingNoGroups(fields);
    } else {
      ScanCorrect(fields, desc, 0);
      assert fields[0..] == fields;
    }
  }

  /** A start offset contributes the arrangements that open the first group there. */
  lemma {:induction false} StartAtCorrect(fields: seq<char>, desc: seq<nat>, i: nat)
    requires WellFormed(fields) && Feasible(fields, desc) && desc != []
    requires i <= |fields| - MinSpace(desc)
    ensures StartAt(fields, desc, i)
         == if Placeable(fields[i..], desc[0]) then Pending(AfterGroup(fields[i..], desc[0]), desc[1..], 0) else 0
    decreases |desc|, 0, 0
  {
    MinSpaceCons(desc);
    var f := fields[i..];
    var g := desc[0];
    if Placeable(f, g) {
      if |fields| > i + g {
        var rest := fields[i + g + 1..];
        assert AfterGroup(f, g) == rest;
        WellFormedSuffix(fields, i + g + 1);
        PositiveSuffix(desc, 1);
        PlaceGroupsCorrect(rest, desc[1..]);
        WaysIsPending(rest, desc[1..]);
      } else {
        assert AfterGroup(f, g) == [] && desc[1..] == [];
        PendingStep([], [], 0);
      }
    }
  }

  lemma {:induction false} ScanCorrect(fields: seq<char>, desc: seq<nat>, i: nat)
    requires WellFormed(fields) && Feasible(fields, desc) && desc != []
    requires i <= |fields| - MinSpace(desc) + 1
    ensures ScanFrom(fields, desc, i) == Pending(fields[i..], desc, 0)
    decreases |desc|, 0, |fields| - i + 1
  {
    var f := fields[i..];
    if i > |fields| - MinSpace(desc) {
      PendingTooShort(f, desc, 0);
    } else {
      WellFormedSuffix(fields, i);
      PendingHead(f, desc);
      StartAtCorrect(fields, desc, i);
      if fields[i] != '#' {
        ScanCorrect(fields, desc, i + 1);
        assert f[1..] == fields[i + 1..];
      }
    }
  }

  /** Every filled entry (a, b) of the memo table holds the count for the last `a` cells of the
      row and the last `b` groups. */
  ghost predicate MemoSound(dp: array2<Option<nat>>, row: seq<char>, groups: seq<nat>)
    reads dp
    requires dp.Length0 == |row| + 1 && dp.Length1 == |groups| + 1
  {
    forall a, b :: 0 <= a <= |row| && 0 <= b <= |groups| && dp[a, b].Some? ==>
      && Feasible(row[|row| - a..], groups[|groups| - b..])
      && dp[a, b].value == PlaceGroups(row[|row| - a..], groups[|groups| - b..])
  }

  /** Filled entries keep their values, and entries for more than `n` groups are untouched. */
  twostate predicate MemoKept(dp: array2<Option<nat>>, n: nat)
    reads dp
  {
    && (forall a, b :: 0 <= a < dp.Length0 && 0 <= b < dp.Length1 && old(dp[a, b]).Some? ==> dp[a, b] == old(dp[a, b]))
    && (forall a, b :: 0 <= a < dp.Length0 && n < b < dp.Length1 ==> dp[a, b] == old(dp[a, b]))
  }

  /** `s` is a suffix of `whole`. */
  ghost predicate IsSuffix<T>(s: seq<T>, whole: seq<T>)
  {
    |s| <= |whole| && s == whole[|whole| - |s|..]
  }

  lemma SuffixOfSuffix<T>(s: seq<T>, whole: seq<T>, k: nat)
    requires IsSuffix(s, whole) && k <= |s|
    ensures IsSuffix(s[k..], whole)
  {
    assert s[k..] == whole[|whole| - |s[k..]|..];
  }

  /** `place_groups`: the memoised search over the suffix `fields` of `row` and the suffix `desc`
      of `groups`.  The table entry for (|fields|, |desc|) is consulted first and filled last;
      entries already filled are never changed. */
  method PlaceGroupsMemo(fields: seq<char>, desc: seq<nat>, dp: array2<Option<nat>>,
                         ghost row: seq<char>, ghost groups: seq<nat>) returns (total: nat)
    requires dp.Length0 == |row| + 1 && dp.Length1 == |groups| + 1
    requires IsSuffix(fields, row) && IsSuffix(desc, groups)
    requires Feasible(fields, desc)
    requires MemoSound(dp, row, groups)
    modifies dp
    ensures MemoSound(dp, row, groups)
    ensures total == PlaceGroups(fields, desc)
    ensures desc != [] ==> dp[|fields|, |desc|] == Some(total)
    ensures MemoKept(dp, |desc|)
    decreases |desc|, 1
  {
    if desc == [] {
      total := if forall i :: 0 <= i < |fields| ==> fields[i] == '?' || fields[i] == '.' then 1 else 0;
      return;
    }
    if dp[|fields|, |desc|].Some? {
      total := dp[|fields|, |desc|].value;
      return;
    }

    var minRequiredSpace := Sum(desc) + |desc| - 1;
    total := 0;
    for i := 0 to |fields| - minRequiredSpace + 1
      invariant total + ScanFrom(fields, desc, i) == PlaceGroups(fields, desc)
      invariant MemoSound(dp, row, groups)
      invariant dp[|fields|, |desc|].None?
      invariant MemoKept(dp, |desc|)
    {
      var here := StartAtMemo(fields, desc, i, dp, row, groups);
      total := total + here;
      if fields[i] == '#' {
        dp[|fields|, |desc|] := Some(total);
        return;
      }
    }
    dp[|fields|, |desc|] := Some(total);
  }

  /** One step of the loop of `place_groups`: the contribution of start offset `i`, looked up or
      filled in the memo table by the recursive call. */
  method StartAtMemo(fields: seq<char>, desc: seq<nat>, i: nat, dp: array2<Option<nat>>,
                     ghost row: seq<char>, ghost groups: seq<nat>) returns (here: nat)
    requires dp.Length0 == |row| + 1 && dp.Length1 == |groups| + 1
    requires IsSuffix(fields, row) && IsSuffix(desc, groups)
    requires Feasible(fields, desc) && desc != []
    requires i <= |fields| - MinSpace(desc)
    requires MemoSound(dp, row, groups)
    modifies dp
    ensures MemoSound(dp, row, groups)
    ensures here == StartAt(fields, desc, i)
    ensures MemoKept(dp, |desc| - 1)
    decreases |desc|, 0
  {
    MinSpaceCons(desc);
    here := 0;
    if CanPlaceGroup(fields[i..], desc[0]) {
      if |fields| > i + desc[0] {
        SuffixOfSuffix(fields, row, i + desc[0] + 1);
        SuffixOfSuffix(desc, groups, 1);
        PositiveSuffix(desc, 1);
        here := PlaceGroupsMemo(fields[i + desc[0] + 1..], desc[1..], dp, row, groups);
      } else {
        here := 1;
      }
    }
  }

  /** `find_combinations`: a fresh memo table per row. */
  method FindCombinations(row: Row) returns (count: nat)
    requires Feasible(row.fields, row.desc)
    ensures count == PlaceGroups(row.fields, row.desc)
    ensures WellFormed(row.fields) ==> count == Ways(row.fields, row.desc)
  {
    var dp := new Option<nat>[|row.fields| + 1, |row.desc| + 1]((_, _) => None);
    assert IsSuffix(row.fields, row.fields) && IsSuffix(row.desc, row.desc);
    count := PlaceGroupsMemo(row.fields, row.desc, dp, row.fields, row.desc);
    assert WellFormed(row.fields) ==> count == Ways(row.fields, row.desc) by {
      if WellFormed(row.fields) {
        PlaceGroupsCorrect(row.fields, row.desc);
      }
    }
  }

  /** Sum of the counts over the rows (the last row added last). */
  function TotalCount(rows: seq<Row>): nat
    requires forall k :: 0 <= k < |rows| ==> Feasible(rows[k].fields, rows[k].desc)
  {
    if rows == [] then 0
    else TotalCount(rows[..|rows| - 1]) + PlaceGroups(rows[|rows| - 1].fields, rows[|rows| - 1].desc)
  }

  /** Sum of the arrangement counts over the rows. */
  ghost function TotalWays(rows: seq<Row>): nat
  {
    if rows == [] then 0
    else TotalWays(rows[..|rows| - 1]) + Ways(rows[|rows| - 1].fields, rows[|rows| - 1].desc)
  }

  lemma {:induction false} TotalCountIsTotalWays(rows: seq<Row>)
    requires forall k :: 0 <= k < |rows| ==> Feasible(rows[k].fields, rows[k].desc) && WellFormed(rows[k].fields)
    ensures TotalCount(rows) == TotalWays(rows)
  {
    if rows != [] {
      TotalCountIsTotalWays(rows[..|rows| - 1]);
      PlaceGroupsCorrect(rows[|rows| - 1].fields, rows[|rows| - 1].desc);
    }
  }

  /** `part1`: the sum of the counts of all rows. */
  method Part1(input: seq<Row>) returns (total: nat)
    requires forall k :: 0 <= k < |input| ==> Feasible(input[k].fields, input[k].desc)
    ensures total == TotalCount(input)
    ensures (forall k :: 0 <= k < |input| ==> WellFormed(input[k].fields)) ==> total == TotalWays(input)
  {
    total := 0;
    for i := 0 to |input|
      invariant total == TotalCount(input[..i])
    {
      var count := FindCombinations(input[i]);
      assert input[..i + 1][..i] == input[..i];
      total := total + count;
    }
    assert input[..|input|] == input;
    assert (forall k :: 0 <= k < |input| ==> WellFormed(input[k].fields)) ==> total == TotalWays(input) by {
      if forall k :: 0 <= k < |input| ==> WellFormed(input[k].fields) {
        TotalCountIsTotalWays(input);
      }
    }
  }

  /** The cells of a row unfolded `repeat` times: the copies joined by one '?' each. */
  function Unfolded(fields: seq<char>, repeat: nat): seq<char>
  {
    if repeat <= 1 then fields else Unfolded(fields, repeat - 1) + ['?'] + fields
  }

  /** `desc.repeat(repeat)`: the groups listed `repeat` times over. */
  function Repeat(desc: seq<nat>, repeat: nat): seq<nat>
  {
    if repeat == 0 then [] else Repeat(desc, repeat - 1) + desc
  }

  /** One row after the unfolding of `part2`. */
  function UnfoldRow(row: Row, repeat: nat): Row
  {
    Row(Unfolded(row.fields, repeat), Repeat(row.desc, repeat))
  }

  /** The inner loop of `part2`'s unfolding: push a '?' and a copy of the cells, `repeat - 1`
      times. */
  method UnfoldFields(fields: seq<char>, repeat: nat) returns (newFields: seq<char>)
    ensures newFields == Unfolded(fields, repeat)
  {
    newFields := fields;
    var k := 2;
    while k <= repeat
      invariant 2 <= k <= if repeat >= 2 then repeat + 1 else 2
      invariant newFields == Unfolded(fields, k - 1)
    {
      newFields := newFields + ['?'];
      newFields := newFields + fields;
      k := k + 1;
    }
  }

  /** Unfolding lays out `repeat` copies of the cells, copy `c` starting at `c * (|fields| + 1)`,
      with a '?' after each copy but the last. */
  lemma {:induction false} UnfoldedAt(fields: seq<char>, repeat: nat, c: nat, t: nat)
    requires c < repeat && t <= |fields|
    requires t < |fields| || c + 1 < repeat
    ensures c * (|fields| + 1) + t < |Unfolded(fields, repeat)|
    ensures Unfolded(fields, repeat)[c * (|fields| + 1) + t] == if t == |fields| then '?' else fields[t]
  {
    var n := |fields|;
    if repeat > 1 {
      var prev := Unfolded(fields, repeat - 1);
      UnfoldedLength(fields, repeat - 1);
      assert |prev| + 1 == (repeat - 1) * (n + 1);
      if c == repeat - 1 {
        assert c * (n + 1) == |prev| + 1;
      } else if c == repeat - 2 && t == n {
        assert (c + 1) * (n + 1) == |prev| + 1;
        assert c * (n + 1) + n + 1 == |prev| + 1;
      } else {
        UnfoldedAt(fields, repeat - 1, c, t);
      }
    }
  }

  lemma {:induction false} UnfoldedLength(fields: seq<char>, repeat: nat)
    requires repeat >= 1
    ensures |Unfolded(fields, repeat)| == repeat * |fields| + repeat - 1
  {
    if repeat > 1 {
      UnfoldedLength(fields, repeat - 1);
    }
  }

  /** The groups repeated `repeat` times: copy `c` of the groups starts at `c * |desc|`. */
  lemma {:induction false} RepeatAt(desc: seq<nat>, repeat: nat, c: nat, t: nat)
    requires c < repeat && t < |desc|
    ensures c * |desc| + t < |Repeat(desc, repeat)|
    ensures Repeat(desc, repeat)[c * |desc| + t] == desc[t]
  {
    var prev := Repeat(desc, repeat - 1);
    RepeatLength(desc, repeat - 1);
    if c < repeat - 1 {
      RepeatAt(desc, repeat - 1, c, t);
    } else {
      assert c * |desc| + t == |prev| + t;
    }
  }

  /** Every repeated group is a group of the row. */
  lemma {:induction false} RepeatPositive(desc: seq<nat>, repeat: nat)
    requires Positive(desc)
    ensures Positive(Repeat(desc, repeat))
  {
    if repeat > 0 {
      RepeatPositive(desc, repeat - 1);
      var r := Repeat(desc, repeat);
      var prev := Repeat(desc, repeat - 1);
      forall i | 0 <= i < |r| ensures r[i] >= 1 {
        if i >= |prev| {
          assert r[i] == desc[i - |prev|];
        }
      }
    }
  }

  lemma {:induction false} RepeatLength(desc: seq<nat>, repeat: nat)
    ensures |Repeat(desc, repeat)| == repeat * |desc|
  {
    if repeat > 0 {
      RepeatLength(desc, repeat - 1);
    }
  }

  lemma {:induction false} SumAppend(a: seq<nat>, b: seq<nat>)
    ensures Sum(a + b) == Sum(a) + Sum(b)
  {
    if a != [] {
      SumAppend(a[1..], b);
      assert (a + b)[0] == a[0];
      assert (a + b)[1..] == a[1..] + b;
    } else {
      assert a + b == b;
    }
  }

  lemma {:induction false} RepeatSum(desc: seq<nat>, repeat: nat)
    ensures Sum(Repeat(desc, repeat)) == repeat * Sum(desc)
  {
    if repeat > 0 {
      RepeatSum(desc, repeat - 1);
      SumAppend(Repeat(desc, repeat - 1), desc);
    }
  }

  /** A unit repeat leaves the row as it is. */
  lemma UnfoldOnce(row: Row)
    ensures UnfoldRow(row, 1) == row
  {
    assert Repeat(row.desc, 1) == [] + row.desc;
  }

  /** Each copy of the cells and of the groups adds `|fields| + 1` cells and `Sum(desc) + |desc|`
      of required space, so room for the groups in the row gives room in the unfolded row. */
  lemma {:induction false} UnfoldRoom(fields: seq<char>, desc: seq<nat>, repeat: nat)
    requires desc != [] && MinSpace(desc) <= |fields| && repeat >= 1
    ensures Repeat(desc, repeat) != []
    ensures MinSpace(Repeat(desc, repeat)) <= |Unfolded(fields, repeat)|
  {
    if repeat == 1 {
      assert Repeat(desc, 1) == desc by {
        assert Repeat(desc, 1) == Repeat(desc, 0) + desc;
      }
    } else {
      UnfoldRoom(fields, desc, repeat - 1);
      SumAppend(Repeat(desc, repeat - 1), desc);
    }
  }

  lemma {:induction false} UnfoldedWellFormed(fields: seq<char>, repeat: nat)
    requires WellFormed(fields)
    ensures WellFormed(Unfolded(fields, repeat))
  {
    if repeat > 1 {
      UnfoldedWellFormed(fields, repeat - 1);
      var u := Unfolded(fields, repeat);
      var prev := Unfolded(fields, repeat - 1);
      forall i | 0 <= i < |u| ensures u[i] == '#' || u[i] == '.' || u[i] == '?' {
        if i < |prev| {
          assert u[i] == prev[i];
        } else if i > |prev| {
          assert u[i] == fields[i - |prev| - 1];
        }
      }
    }
  }

  /** Unfolding keeps a row feasible and well formed, so `part2` may search the unfolded rows. */
  lemma UnfoldFeasible(row: Row, repeat: nat)
    requires Feasible(row.fields, row.desc)
    ensures Feasible(UnfoldRow(row, repeat).fields, UnfoldRow(row, repeat).desc)
    ensures WellFormed(row.fields) ==> WellFormed(UnfoldRow(row, repeat).fields)
  {
    RepeatPositive(row.desc, repeat);
    RepeatLength(row.desc, repeat);
    if row.desc != [] && repeat >= 1 {
      UnfoldRoom(row.fields, row.desc, repeat);
    }
    if WellFormed(row.fields) {
      UnfoldedWellFormed(row.fields, repeat);
    }
  }

  /** `part2`: unfold every row in place, then sum the counts of the unfolded rows. */
  method Part2(input: array<Row>, repeat: nat) returns (total: nat)
    requires forall k :: 0 <= k < input.Length ==> Feasible(input[k].fields, input[k].desc)
    modifies input
    ensures forall k :: 0 <= k < input.Length ==> input[k] == UnfoldRow(old(input[k]), repeat)
    ensures forall k :: 0 <= k < input.Length ==> Feasible(input[k].fields, input[k].desc)
    ensures total == TotalCount(input[..])
    ensures (forall k :: 0 <= k < input.Length ==> WellFormed(input[k].fields)) ==> total == TotalWays(input[..])
  {
    for j := 0 to input.Length
      invariant forall k :: 0 <= k < j ==> input[k] == UnfoldRow(old(input[k]), repeat)
      invariant forall k :: j <= k < input.Length ==> input[k] == old(input[k])
    {
      var row := input[j];
      var newFields := UnfoldFields(row.fields, repeat);
      input[j] := Row(newFields, Repeat(row.desc, repeat));
    }
    forall k | 0 <= k < input.Length
      ensures Feasible(input[k].fields, input[k].desc)
    {
      UnfoldFeasible(old(input[k]), repeat);
    }
    total := Part1(input[..]);
  }
}
