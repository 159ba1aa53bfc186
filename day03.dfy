/** Day 3, gear ratios: the sum of the part numbers of an engine schematic (day03/src/lib.rs).

    The schematic is a grid of characters.  A number is a maximal run of decimal digits in a row; it
    is a part number when one of the cells around it holds a symbol (neither a digit nor '.').
    Coordinates are `int` here: the source turns them into `isize`, subtracts, and casts back to
    `usize`, so a negative coordinate wraps to a huge index that lies outside the grid, which is
    exactly how it is read below. */
module GearRatios {

  predicate IsDigit(c: char) { '0' <= c <= '9' }

  function DigitValue(c: char): nat { if IsDigit(c) then (c as int - '0' as int) else 0 }

  /** `check_idx`: the cell holds a symbol; cells outside the grid read as '.'. */
  function CheckIdx(grid: seq<seq<char>>, row: int, col: int): (symbol: bool)
    ensures symbol <==> 0 <= row < |grid| && 0 <= col < |grid[row]| && !IsDigit(grid[row][col]) && grid[row][col] != '.'
  {
    var c := if 0 <= row < |grid| && 0 <= col < |grid[row]| then grid[row][col] else '.';
    !IsDigit(c) && c != '.'
  }

  /** A symbol lies in the box around the `numLen` cells left of `col` in row `row`: the rows above
      and below from column `col - numLen - 1` to `col`, and the two cells beside the number. */
  predicate Touches(grid: seq<seq<char>>, row: int, col: int, numLen: int)
  {
    exists r, c :: row - 1 <= r <= row + 1 && col - numLen - 1 <= c <= col &&
      (r != row || c == col - numLen - 1 || c == col) && CheckIdx(grid, r, c)
  }

  /** `touches_part`: the row above, the left neighbour, the right neighbour, the row below. */
  method TouchesPart(grid: seq<seq<char>>, row: int, col: int, numLen: nat) returns (touches: bool)
    ensures touches == Touches(grid, row, col, numLen)
  {
    var left := col - (numLen + 1);
    var above, below := row - 1, row + 1;
    for c := left to col + 1
      invariant forall cc :: left <= cc < c ==> !CheckIdx(grid, above, cc)
    {
      if CheckIdx(grid, above, c) {
        return true;
      }
    }
    if CheckIdx(grid, row, left) {
      return true;
    }
    if CheckIdx(grid, row, col) {
      return true;
    }
    for c := left to col + 1
      invariant forall cc :: left <= cc < c ==> !CheckIdx(grid, below, cc)
    {
      if CheckIdx(grid, below, c) {
        return true;
      }
    }
    forall r, c | row - 1 <= r <= row + 1 && left <= c <= col && (r != row || c == left || c == col)
      ensures !CheckIdx(grid, r, c)
    {
      if r == row - 1 {
        assert !CheckIdx(grid, above, c);
      } else if r == row + 1 {
        assert !CheckIdx(grid, below, c);
      }
    }
    return false;
  }

  /** Decimal value of a run of digits. */
  function Value(ds: seq<char>): nat
  {
    if ds == [] then 0 else Value(ds[..|ds| - 1]) * 10 + DigitValue(ds[|ds| - 1])
  }

  /** Where the run of digits that ends right before `e` starts. */
  function RunStart(row: seq<char>, e: nat): (s: nat)
    requires e <= |row|
    ensures s <= e && (s > 0 ==> !IsDigit(row[s - 1]))
    ensures forall k :: s <= k < e ==> IsDigit(row[k])
  {
    if e > 0 && IsDigit(row[e - 1]) then RunStart(row, e - 1) else e
  }

  /** Column `c` closes a number: the cell before it is a digit and `c` is the row end or a
      non-digit. */
  predicate Closes(row: seq<char>, c: nat)
  {
    0 < c <= |row| && IsDigit(row[c - 1]) && (c == |row| || !IsDigit(row[c]))
  }

  /** What the number closed at column `c` of row `r` adds: its value when it is positive and a
      symbol is adjacent, otherwise nothing. */
  function PartNumber(grid: seq<seq<char>>, r: nat, c: nat): nat
    requires r < |grid| && c <= |grid[r]|
  {
    var row := grid[r];
    var s := RunStart(row, c);
    if Closes(row, c) && Value(row[s..c]) > 0 && Touches(grid, r, c, c - s) then Value(row[s..c]) else 0
  }

  /** The part numbers of row `r` closed before column `n`. */
  function RowTotal(grid: seq<seq<char>>, r: nat, n: nat): nat
    requires r < |grid| && n <= |grid[r]| + 1
  {
    if n == 0 then 0 else RowTotal(grid, r, n - 1) + PartNumber(grid, r, n - 1)
  }

  /** The part numbers of the rows before `n`. */
  function GridTotal(grid: seq<seq<char>>, n: nat): nat
    requires n <= |grid|
  {
    if n == 0 then 0 else GridTotal(grid, n - 1) + RowTotal(grid, n - 1, |grid[n - 1]| + 1)
  }

  lemma ValueAppend(ds: seq<char>, c: char)
    ensures Value(ds + [c]) == Value(ds) * 10 + DigitValue(c)
  {
    assert (ds + [c])[..|ds|] == ds;
  }

  /** At a column that is the row end or a non-digit, the number closed there is added exactly
      when it is positive and touches a symbol. */
  lemma PartNumberAt(grid: seq<seq<char>>, r: nat, c: nat)
    requires r < |grid| && c <= |grid[r]| && (c == |grid[r]| || !IsDigit(grid[r][c]))
    ensures var s := RunStart(grid[r], c);
      PartNumber(grid, r, c) == if Value(grid[r][s..c]) > 0 && Touches(grid, r, c, c - s) then Value(grid[r][s..c]) else 0
  {
    var row := grid[r];
    var s := RunStart(row, c);
    if s == c {
      assert row[s..c] == [];
      assert Value(row[s..c]) == 0;
    } else {
      assert IsDigit(row[c - 1]);
      assert Closes(row, c);
    }
  }

  /** One more column: a digit extends the current run and closes nothing; any other cell starts a
      fresh run after it. */
  lemma ColumnStep(grid: seq<seq<char>>, r: nat, c: nat)
    requires r < |grid| && c < |grid[r]|
    ensures RowTotal(grid, r, c + 1) == RowTotal(grid, r, c) + PartNumber(grid, r, c)
    ensures IsDigit(grid[r][c]) ==> RunStart(grid[r], c + 1) == RunStart(grid[r], c) && PartNumber(grid, r, c) == 0
    ensures !IsDigit(grid[r][c]) ==> RunStart(grid[r], c + 1) == c + 1
  {
  }

  /** `part1`, with the number accumulators reset at every non-digit: the sum of the part numbers. */
  method Part1(grid: seq<seq<char>>) returns (sum: nat)
    ensures sum == GridTotal(grid, |grid|)
  {
    sum := 0;
    for r := 0 to |grid|
      invariant sum == GridTotal(grid, r)
    {
      var rowSum := ScanRow(grid, r);
      sum := sum + rowSum;
    }
  }

  /** The inner loop of `part1` over row `r`, and the check at the row end.  `numAcc` is the value
      and `lenAcc` the length of the digit run read so far. */
  method ScanRow(grid: seq<seq<char>>, r: nat) returns (sum: nat)
    requires r < |grid|
    ensures sum == RowTotal(grid, r, |grid[r]| + 1)
  {
    var row := grid[r];
    sum := 0;
    var numAcc, lenAcc := 0, 0;
    for c := 0 to |row|
      invariant ScanState(grid, r, c, sum, numAcc, lenAcc)
    {
      sum, numAcc, lenAcc := ScanColumn(grid, r, c, sum, numAcc, lenAcc);
    }
    var add := CloseNumber(grid, r, |row|, numAcc, lenAcc);
    sum := sum + add;
  }

  /** The loop state after the columns before `c` of row `r`: `lenAcc` is the length and `numAcc`
      the value of the digit run ending at `c`, and `sum` holds the numbers closed so far. */
  predicate ScanState(grid: seq<seq<char>>, r: nat, c: nat, sum: nat, numAcc: nat, lenAcc: nat)
    requires r < |grid| && c <= |grid[r]|
  {
    && lenAcc == c - RunStart(grid[r], c)
    && numAcc == Value(grid[r][c - lenAcc..c])
    && sum == RowTotal(grid, r, c)
  }

  /** One pass of the inner loop of `part1`: a digit extends the number read; any other cell
      closes it and resets the accumulators. */
  method ScanColumn(grid: seq<seq<char>>, r: nat, c: nat, sum: nat, numAcc: nat, lenAcc: nat)
    returns (sum': nat, numAcc': nat, lenAcc': nat)
    requires r < |grid| && c < |grid[r]|
    requires ScanState(grid, r, c, sum, numAcc, lenAcc)
    ensures ScanState(grid, r, c + 1, sum', numAcc', lenAcc')
  {
    var row := grid[r];
    ColumnStep(grid, r, c);
    if IsDigit(row[c]) {
      assert row[c - lenAcc..c + 1] == row[c - lenAcc..c] + [row[c]];
      ValueAppend(row[c - lenAcc..c], row[c]);
      sum', numAcc', lenAcc' := sum, numAcc * 10 + DigitValue(row[c]), lenAcc + 1;
    } else {
      var add := CloseNumber(grid, r, c, numAcc, lenAcc);
      sum', numAcc', lenAcc' := sum + add, 0, 0;
    }
  }

  /** The check made where a run of digits ends (in the row or at its end): the number read is
      added when it is positive and touches a symbol. */
  method CloseNumber(grid: seq<seq<char>>, r: nat, c: nat, numAcc: nat, lenAcc: nat) returns (add: nat)
    requires r < |grid| && c <= |grid[r]| && (c == |grid[r]| || !IsDigit(grid[r][c]))
    requires lenAcc == c - RunStart(grid[r], c) && numAcc == Value(grid[r][c - lenAcc..c])
    ensures add == PartNumber(grid, r, c)
  {
    PartNumberAt(grid, r, c);
    add := 0;
    if numAcc > 0 {
      var touches := TouchesPart(grid, r, c, lenAcc);
      if touches {
        add := numAcc;
      }
    }
  }

  /** The loop state of `part1`: the running sum and the two number accumulators. */
  datatype Scan = Scan(sum: nat, numAcc: nat, lenAcc: nat)

  /** Every run of digits in the row that closes has a positive value (no run made of zeros only). */
  predicate NoZeroRun(row: seq<char>)
  {
    forall c :: 0 < c <= |row| && Closes(row, c) ==> Value(row[RunStart(row, c)..c]) > 0
  }

  predicate NoZeroRuns(grid: seq<seq<char>>)
  {
    forall r :: 0 <= r < |grid| ==> NoZeroRun(grid[r])
  }

  /** One column of the inner loop of `part1` as written: after a non-digit the accumulators are
      reset only when the number read was positive.  From the loop state of the corrected scan the
      step reaches the next one, unless a run of zeros closes here: then nothing is reset and the
      stale length stays. */
  function StepAsWritten(grid: seq<seq<char>>, r: nat, c: nat, st: Scan): (next: Scan)
    requires r < |grid| && c < |grid[r]|
    ensures ScanState(grid, r, c, st.sum, st.numAcc, st.lenAcc) &&
            (IsDigit(grid[r][c]) || st.numAcc > 0 || st.lenAcc == 0) ==>
              ScanState(grid, r, c + 1, next.sum, next.numAcc, next.lenAcc)
    ensures !IsDigit(grid[r][c]) && st.numAcc == 0 ==> next == st
  {
    var row := grid[r];
    var ch := row[c];
    var next :=
      if IsDigit(ch) then Scan(st.sum, st.numAcc * 10 + DigitValue(ch), st.lenAcc + 1)
      else if st.numAcc > 0 then
        Scan(st.sum + if Touches(grid, r, c, st.lenAcc) then st.numAcc else 0, 0, 0)
      else st;
    assert ScanState(grid, r, c, st.sum, st.numAcc, st.lenAcc) &&
           (IsDigit(ch) || st.numAcc > 0 || st.lenAcc == 0) ==>
             ScanState(grid, r, c + 1, next.sum, next.numAcc, next.lenAcc) by {
      if ScanState(grid, r, c, st.sum, st.numAcc, st.lenAcc) {
        ColumnStep(grid, r, c);
        if IsDigit(ch) {
          assert row[c - st.lenAcc..c + 1] == row[c - st.lenAcc..c] + [ch];
          ValueAppend(row[c - st.lenAcc..c], ch);
        } else {
          PartNumberAt(grid, r, c);
          if st.numAcc == 0 && st.lenAcc == 0 {
            assert row[c + 1..c + 1] == [];
          }
        }
      }
    }
    next
  }

  /** The inner loop of `part1` as written from column `c` on, and the check at the row end.  On a
      row without runs of zeros, started from the corrected scan's state, it adds up the part
      numbers of the row. */
  function RowAsWritten(grid: seq<seq<char>>, r: nat, c: nat, st: Scan): (total: nat)
    requires r < |grid| && c <= |grid[r]|
    ensures NoZeroRun(grid[r]) && ScanState(grid, r, c, st.sum, st.numAcc, st.lenAcc) ==>
              total == RowTotal(grid, r, |grid[r]| + 1)
    decreases |grid[r]| - c
  {
    var row := grid[r];
    if c == |row| then
      PartNumberAt(grid, r, c);
      st.sum + if st.numAcc > 0 && Touches(grid, r, c, st.lenAcc) then st.numAcc else 0
    else
      assert NoZeroRun(row) && ScanState(grid, r, c, st.sum, st.numAcc, st.lenAcc) ==>
               IsDigit(row[c]) || st.numAcc > 0 || st.lenAcc == 0 by {
        if NoZeroRun(row) && ScanState(grid, r, c, st.sum, st.numAcc, st.lenAcc) && !IsDigit(row[c]) && st.lenAcc > 0 {
          assert Closes(row, c);
        }
      }
      RowAsWritten(grid, r, c + 1, StepAsWritten(grid, r, c, st))
  }

  /** `part1` as written, over the rows before `n`.  On a grid without runs of zeros it is the
      corrected sum: the defect shows only where a number reads as 0. */
  function Part1AsWritten(grid: seq<seq<char>>, n: nat): (total: nat)
    requires n <= |grid|
    ensures NoZeroRuns(grid) ==> total == GridTotal(grid, n)
  {
    if n == 0 then 0
    else
      assert grid[n - 1][0..0] == [];
      Part1AsWritten(grid, n - 1) + RowAsWritten(grid, n - 1, 0, Scan(0, 0, 0))
  }

  /** The grid of the counterexample below. */
  const StaleGrid: seq<seq<char>> := ["*...", "0.5."]

  /** As written, the 5 is counted: after the 0 its box is two cells wide and reaches the '*'. */
  lemma StaleGridAsWritten()
    ensures Part1AsWritten(StaleGrid, 2) == 5
  {
    var g := StaleGrid;
    assert CheckIdx(g, 0, 0);
    assert Touches(g, 1, 3, 2);
    assert RowAsWritten(g, 0, 0, Scan(0, 0, 0)) == 0;
    assert Value(g[1][2..3]) == 5;
    assert RowAsWritten(g, 1, 0, Scan(0, 0, 0)) == 5;
  }

  /** With the reset, no part number is found: the 0 is not positive and the 5 touches no symbol. */
  lemma StaleGridCorrected()
    ensures GridTotal(StaleGrid, 2) == 0
  {
    var g := StaleGrid;
    assert !Touches(g, 1, 3, 1) by {
      forall r, c | 0 <= r <= 2 && 1 <= c <= 3 ensures !CheckIdx(g, r, c) {
      }
    }
    assert RunStart(g[0], 4) == 4 && RunStart(g[0], 3) == 3 && RunStart(g[0], 2) == 2 && RunStart(g[0], 1) == 1;
    assert RowTotal(g, 0, 5) == 0;
    assert RunStart(g[1], 3) == 2 && RunStart(g[1], 1) == 0;
    assert Value(g[1][0..1]) == 0;
    assert RowTotal(g, 1, 5) == 0;
  }

  /** A lone "0" leaves its length behind: the 5 below reads as two cells wide, its box reaches
      the '*' above the 0, and 5 is counted although no symbol is adjacent to it. */
  lemma StaleLengthCounterexample()
    ensures Part1AsWritten(["*...", "0.5."], 2) == 5
    ensures GridTotal(["*...", "0.5."], 2) == 0
  {
    StaleGridAsWritten();
    StaleGridCorrected();
  }
}
