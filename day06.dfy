/** Day 6, boat races (day06/src/lib.rs).

    Holding the button for `t` of a race's `time` milliseconds gives the boat speed `t`, so it
    travels `t * (time - t)`.  A race counts the hold times that beat the record distance. */
module BoatRaces {
  import opened Wrappers

  /** Holding for `t` beats the record `best`. */
  predicate Beats(time: nat, best: nat, t: nat)
    requires t <= time
  {
    t * (time - t) > best
  }

  /** The hold times below `n` that beat the record. */
  function Winning(time: nat, best: nat, n: nat): nat
    requires n <= time
  {
    if n == 0 then 0 else Winning(time, best, n - 1) + if Beats(time, best, n - 1) then 1 else 0
  }

  /** The counting loop of one race: the hold times `0..time` that beat the record. */
  method CountFaster(time: nat, best: nat) returns (faster: nat)
    ensures faster == Winning(time, best, time)
    ensures faster <= time
  {
    faster := 0;
    for timeStep := 0 to time
      invariant faster == Winning(time, best, timeStep) && faster <= timeStep
    {
      var travelDistance := timeStep * (time - timeStep);
      if travelDistance > best {
        faster := faster + 1;
      }
    }
  }

  /** Holding for 0 never wins, and `t` wins exactly when `time - t` does. */
  lemma BeatsSymmetric(time: nat, best: nat, t: nat)
    requires t <= time
    ensures !Beats(time, best, 0)
    ensures Beats(time, best, t) <==> Beats(time, best, time - t)
  {
    assert t * (time - t) == (time - t) * (time - (time - t));
  }

  /** The winning hold times form an interval: between two winners every hold time wins. */
  lemma WinnersContiguous(time: nat, best: nat, t1: nat, t2: nat, t3: nat)
    requires t1 <= t2 <= t3 <= time
    requires Beats(time, best, t1) && Beats(time, best, t3)
    ensures Beats(time, best, t2)
  {
    assert t2 * (time - t2) - t1 * (time - t1) == (t2 - t1) * (time - t1 - t2);
    assert t2 * (time - t2) - t3 * (time - t3) == (t3 - t2) * (t2 + t3 - time);
    if time - t1 - t2 >= 0 {
      assert (t2 - t1) * (time - t1 - t2) >= 0;
    } else {
      assert (t3 - t2) * (t2 + t3 - time) >= 0;
    }
  }

  /** Holding for 0 never wins, so at most `n - 1` of the first `n` hold times win. */
  lemma {:induction false} WinningBounds(time: nat, best: nat, n: nat)
    requires n <= time
    ensures Winning(time, best, n) <= if n == 0 then 0 else n - 1
  {
    if n == 1 {
      BeatsSymmetric(time, best, 0);
    } else if n > 1 {
      WinningBounds(time, best, n - 1);
    }
  }

  /** The product of the race counts over the first `n` races. */
  function RaceProduct(times: seq<nat>, dists: seq<nat>, n: nat): nat
    requires n <= |times| && n <= |dists|
  {
    if n == 0 then 1 else RaceProduct(times, dists, n - 1) * Winning(times[n - 1], dists[n - 1], times[n - 1])
  }

  /** `part1`, from the parsed numbers: races pair times with distances position by position, the
      longer list is cut to the shorter one (`zip`), and the counts are multiplied. */
  method Part1(times: seq<nat>, dists: seq<nat>) returns (product: nat)
    ensures var n := if |times| <= |dists| then |times| else |dists|;
      product == RaceProduct(times, dists, n)
    ensures times == [] || dists == [] ==> product == 1
  {
    var n := if |times| <= |dists| then |times| else |dists|;
    product := 1;
    for k := 0 to n
      invariant product == RaceProduct(times, dists, k)
    {
      var faster := CountFaster(times[k], dists[k]);
      product := product * faster;
    }
  }

  /** `split_once(':')`: the text after the first ':'. */
  function AfterColon(line: string): (r: Option<string>)
    ensures r.Some? ==> exists k :: 0 <= k < |line| && line[k] == ':' && r.value == line[k + 1..] && ':' !in line[..k]
    ensures r.None? <==> ':' !in line
  {
    if line == [] then None
    else if line[0] == ':' then Some(line[1..])
    else
      var rest := AfterColon(line[1..]);
      assert line == [line[0]] + line[1..];
      if rest.None? then None
      else
        var k :| 0 <= k < |line[1..]| && line[1..][k] == ':' && rest.value == line[1..][k + 1..] && ':' !in line[1..][..k];
        assert line[k + 1] == ':' && line[k + 2..] == rest.value;
        assert line[..k + 1] == [line[0]] + line[1..][..k];
        rest
  }

  /** `replace(' ', "")`: the spaces dropped, every other character kept. */
  function RemoveSpaces(s: string): (r: string)
    ensures ' ' !in r && |r| <= |s|
  {
    if s == [] then [] else (if s[0] == ' ' then [] else [s[0]]) + RemoveSpaces(s[1..])
  }

  /** Exactly the spaces are dropped: every other character keeps its number of occurrences. */
  lemma {:induction false} RemoveSpacesKeeps(s: string)
    ensures multiset(RemoveSpaces(s)) == multiset(s)[' ' := 0]
  {
    if s != [] {
      assert s == [s[0]] + s[1..];
      RemoveSpacesKeeps(s[1..]);
    }
  }

  /** Removing spaces works piece by piece, so the kept characters stay in their order. */
  lemma {:induction false} RemoveSpacesConcat(a: string, b: string)
    ensures RemoveSpaces(a + b) == RemoveSpaces(a) + RemoveSpaces(b)
  {
    if a != [] {
      assert (a + b)[0] == a[0] && (a + b)[1..] == a[1..] + b;
      RemoveSpacesConcat(a[1..], b);
    } else {
      assert a + b == b;
    }
  }

  predicate IsDigit(c: char) { '0' <= c <= '9' }

  function DigitOf(c: char): nat
  {
    if IsDigit(c) then c as int - '0' as int else 0
  }

  /** The decimal value of a digit string, read left to right. */
  function DigitsValue(s: string): nat
  {
    if s == [] then 0 else DigitsValue(s[..|s| - 1]) * 10 + DigitOf(s[|s| - 1])
  }

  function Pow10(n: nat): (p: nat)
    ensures p >= 1
  {
    if n == 0 then 1 else 10 * Pow10(n - 1)
  }

  const U64Max: nat := 0xffff_ffff_ffff_ffff

  /** The digits `parse::<u64>()` reads: one leading '+' is skipped. */
  function Unsigned(s: string): (d: string)
    ensures |d| <= |s| && d == s[|s| - |d|..]
    ensures d == s <==> s == [] || s[0] != '+'
  {
    if s != [] && s[0] == '+' then s[1..] else s
  }

  predicate AllDigits(s: string)
  {
    forall k :: 0 <= k < |s| ==> IsDigit(s[k])
  }

  /** `parse::<u64>()`: an optional '+' and then at least one decimal digit, whose value must fit
      in 64 bits; anything else, a lone sign or a '-' included, fails. */
  function ParseNumber(s: string): (r: Option<nat>)
    ensures r.Some? <==> Unsigned(s) != [] && AllDigits(Unsigned(s)) && DigitsValue(Unsigned(s)) <= U64Max
    ensures r.Some? ==> r.value == DigitsValue(Unsigned(s)) && r.value <= U64Max
  {
    var digits := Unsigned(s);
    if digits != [] && AllDigits(digits) && DigitsValue(digits) <= U64Max then Some(DigitsValue(digits))
    else None
  }

  /** The decimal rendering of `n`, without leading zeros. */
  function Decimal(n: nat): (s: string)
    ensures s != [] && AllDigits(s) && s[0] != '+'
    ensures DigitsValue(s) == n
  {
    var last := ['0' + (n % 10) as char];
    assert DigitOf(last[0]) == n % 10;
    if n < 10 then
      assert last[..0] == [];
      last
    else
      var front := Decimal(n / 10);
      var s := front + last;
      assert s[..|s| - 1] == front && s[|s| - 1] == last[0];
      assert forall k :: 0 <= k < |front| ==> s[k] == front[k];
      s
  }

  /** Every 64-bit value is read back from its decimal rendering, with or without a '+'. */
  lemma ParseDecimal(n: nat)
    requires n <= U64Max
    ensures ParseNumber(Decimal(n)) == Some(n)
    ensures ParseNumber("+" + Decimal(n)) == Some(n)
  {
    var s := "+" + Decimal(n);
    assert s[1..] == Decimal(n);
  }

  /** One value past the 64-bit range overflows. */
  lemma ParseOverflow()
    ensures ParseNumber(Decimal(U64Max + 1)) == None
  {
  }

  /** A sign with no digits after it is not a number. */
  lemma ParseLoneSign()
    ensures ParseNumber("+") == None && ParseNumber("") == None && ParseNumber("-1") == None
  {
    assert Unsigned("-1") == "-1" && !IsDigit("-1"[0]);
  }

  /** Reading digits one after the other: the first block is shifted by the length of the second. */
  lemma {:induction false} DigitsConcat(a: string, b: string)
    ensures DigitsValue(a + b) == DigitsValue(a) * Pow10(|b|) + DigitsValue(b)
    decreases |b|
  {
    if b == [] {
      assert a + b == a;
    } else {
      var b' := b[..|b| - 1];
      var d := DigitOf(b[|b| - 1]);
      assert (a + b)[..|a + b| - 1] == a + b';
      assert (a + b)[|a + b| - 1] == b[|b| - 1];
      DigitsConcat(a, b');
      assert DigitsValue(a + b) == DigitsValue(a + b') * 10 + d;
      assert DigitsValue(b) == DigitsValue(b') * 10 + d;
      assert Pow10(|b|) == Pow10(|b'|) * 10;
      ShiftDigit(DigitsValue(a), DigitsValue(b'), Pow10(|b'|), d);
    }
  }

  lemma ShiftDigit(x: int, y: int, p: int, d: int)
    ensures (x * p + y) * 10 + d == x * (p * 10) + (y * 10 + d)
  {
  }

  /** The number `part2` reads from a line: the text after ':' without its spaces. */
  function ReadKerned(line: string): (r: Option<nat>)
    ensures r.Some? <==> ':' in line && ParseNumber(RemoveSpaces(AfterColon(line).value)).Some?
    ensures r.Some? ==> r.value <= U64Max
  {
    match AfterColon(line)
    case None => None
    case Some(rest) => ParseNumber(RemoveSpaces(rest))
  }

  /** The text after the first ':' of a line, found at `k`. */
  lemma AfterFirstColon(line: string, k: nat)
    requires k < |line| && line[k] == ':' && ':' !in line[..k]
    ensures AfterColon(line) == Some(line[k + 1..])
  {
    assert forall j :: 0 <= j < k ==> line[..k][j] == line[j];
  }

  lemma SignedSpaces()
    ensures RemoveSpaces(" +7") == "+7"
  {
  }

  lemma SignedLineSplit()
    ensures AfterColon("Time: +7") == Some(" +7")
  {
    var line := "Time: +7";
    AfterFirstColon(line, 4);
    assert line[5..] == " +7";
  }

  lemma SignedSevenParses()
    ensures ParseNumber("+7") == Some(7)
  {
    assert Unsigned("+7") == "7";
    assert DigitsValue("7") == 7 by { assert "7"[..0] == []; }
  }

  /** A '+' before the number does not change what `part2` reads. */
  lemma ReadKernedSign()
    ensures ReadKerned("Time: +7") == Some(7)
  {
    SignedLineSplit();
    SignedSpaces();
    SignedSevenParses();
  }

  lemma SpacedFifteen()
    ensures RemoveSpaces(" 15") == "15"
  {
    assert RemoveSpaces("5") == "5";
    assert RemoveSpaces("15") == "15" by { assert "15"[1..] == "5"; }
    assert " 15"[1..] == "15";
  }

  lemma SpacedDigits()
    ensures RemoveSpaces(" 7 15") == "715"
  {
    SpacedFifteen();
    var t := "7 15";
    assert t[0] == '7' && t[1..] == " 15";
    assert RemoveSpaces(t) == "715";
    assert " 7 15"[1..] == t;
  }

  lemma SpacedLineSplit()
    ensures AfterColon("T: 7 15") == Some(" 7 15")
  {
    var line := "T: 7 15";
    AfterFirstColon(line, 1);
    assert line[2..] == " 7 15";
  }

  lemma JoinedDigitsParse()
    ensures ParseNumber("715") == Some(715)
  {
    assert Unsigned("715") == "715";
    assert DigitsValue("7") == 7 by { assert "7"[..0] == []; }
    assert DigitsValue("71") == 71 by { assert "71"[..1] == "7"; }
    assert DigitsValue("715") == 715 by { assert "715"[..2] == "71"; }
  }

  /** The spaces between the digits are dropped and the digits read as one number. */
  lemma ReadKernedSpaces()
    ensures ReadKerned("T: 7 15") == Some(715)
  {
    SpacedLineSplit();
    SpacedDigits();
    JoinedDigitsParse();
  }

  /** `part2`: one race whose time and record are read with the spaces removed.  `None` where the
      source's `unwrap` panics. */
  method Part2(timeLine: string, distanceLine: string) returns (r: Option<nat>)
    ensures r.Some? <==> ReadKerned(timeLine).Some? && ReadKerned(distanceLine).Some?
    ensures r.Some? ==>
      var time := ReadKerned(timeLine).value;
      r.value == Winning(time, ReadKerned(distanceLine).value, time) && r.value <= time
  {
    var time := ReadKerned(timeLine);
    var bestDistance := ReadKerned(distanceLine);
    if time.None? || bestDistance.None? {
      return None;
    }
    var faster := CountFaster(time.value, bestDistance.value);
    return Some(faster);
  }
}
