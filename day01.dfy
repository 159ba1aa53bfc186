/** Day 1, trebuchet calibration (day01/src/lib.rs).

    A checker recognises one digit, written either as a character or as a word.  The calibration
    value of a line is ten times the digit of the checker whose pattern occurs first plus the digit
    of the checker whose pattern occurs last.  Positions are the character offsets of a line. */
module Calibration {
  import opened Wrappers

  const I32Max: int := 0x7fff_ffff
  const I32Min: int := -0x8000_0000

  /** `DigitChecker`: a digit character or a digit word, with the digit it stands for. */
  datatype Checker = Digit(c: char, d: nat) | Word(word: string, d: nat)
  {
    /** What the checker looks for in a line. */
    function Pattern(): string
    {
      match this
      case Digit(c, _) => [c]
      case Word(w, _) => w
    }

    /** `digit`. */
    function Value(): nat
    {
      match this
      case Digit(_, d) => d
      case Word(_, d) => d
    }
  }

  /** `p` occurs in `s` at offset `i`. */
  predicate OccursAt(p: string, s: string, i: int)
  {
    0 <= i && i + |p| <= |s| && s[i..i + |p|] == p
  }

  /** `str::find`: the first offset at or after `from` where `p` occurs. */
  function FindFrom(p: string, s: string, from: nat): (r: Option<nat>)
    requires from <= |s| + 1
    ensures r.Some? ==> from <= r.value && OccursAt(p, s, r.value)
    ensures r.Some? ==> forall k :: from <= k < r.value ==> !OccursAt(p, s, k)
    ensures r.None? ==> forall k :: from <= k ==> !OccursAt(p, s, k)
    decreases |s| + 1 - from
  {
    if from + |p| > |s| then None
    else if s[from..from + |p|] == p then Some(from)
    else FindFrom(p, s, from + 1)
  }

  /** `str::rfind`: the last offset below `upto` where `p` occurs. */
  function RFindBelow(p: string, s: string, upto: nat): (r: Option<nat>)
    ensures r.Some? ==> r.value < upto && OccursAt(p, s, r.value)
    ensures r.Some? ==> forall k :: r.value < k < upto ==> !OccursAt(p, s, k)
    ensures r.None? ==> forall k :: k < upto ==> !OccursAt(p, s, k)
  {
    if upto == 0 then None
    else if OccursAt(p, s, upto - 1) then Some(upto - 1)
    else RFindBelow(p, s, upto - 1)
  }

  /** `leftmost_idx`: the first offset of the pattern, or `i32::MAX` when it does not occur. */
  function LeftmostIdx(ch: Checker, line: string): (r: int)
    requires |line| < I32Max
    ensures r == I32Max <==> forall k :: !OccursAt(ch.Pattern(), line, k)
    ensures r != I32Max ==> OccursAt(ch.Pattern(), line, r) && forall k :: k < r ==> !OccursAt(ch.Pattern(), line, k)
  {
    match FindFrom(ch.Pattern(), line, 0)
    case Some(i) => i
    case None => I32Max
  }

  /** `rightmost_index`: the last offset of the pattern, or `i32::MIN` when it does not occur. */
  function RightmostIndex(ch: Checker, line: string): (r: int)
    ensures r == I32Min <==> forall k :: !OccursAt(ch.Pattern(), line, k)
    ensures r != I32Min ==> OccursAt(ch.Pattern(), line, r) && forall k :: k > r ==> !OccursAt(ch.Pattern(), line, k)
  {
    match RFindBelow(ch.Pattern(), line, |line| + 1)
    case Some(i) => i
    case None => I32Min
  }

  /** `Iterator::min_by_key`: the position of the first element with the smallest key. */
  function MinByKey(keys: seq<int>): (r: nat)
    requires keys != []
    ensures r < |keys|
    ensures forall k :: 0 <= k < |keys| ==> keys[r] <= keys[k]
    ensures forall k :: 0 <= k < r ==> keys[r] < keys[k]
  {
    if |keys| == 1 then 0
    else
      var r := MinByKey(keys[..|keys| - 1]);
      if keys[|keys| - 1] < keys[r] then |keys| - 1 else r
  }

  /** `Iterator::max_by_key`: the position of the last element with the largest key. */
  function MaxByKey(keys: seq<int>): (r: nat)
    requires keys != []
    ensures r < |keys|
    ensures forall k :: 0 <= k < |keys| ==> keys[k] <= keys[r]
    ensures forall k :: r < k < |keys| ==> keys[k] < keys[r]
  {
    if |keys| == 1 then 0
    else
      var r := MaxByKey(keys[..|keys| - 1]);
      if keys[|keys| - 1] >= keys[r] then |keys| - 1 else r
  }

  function Leftmost(checkers: seq<Checker>, line: string): seq<int>
    requires |line| < I32Max
  {
    seq(|checkers|, k requires 0 <= k < |checkers| => LeftmostIdx(checkers[k], line))
  }

  function Rightmost(checkers: seq<Checker>, line: string): seq<int>
  {
    seq(|checkers|, k requires 0 <= k < |checkers| => RightmostIndex(checkers[k], line))
  }

  /** Checker `a`'s pattern occurs no later than any other checker's (an absent one counts as
      `i32::MAX`). */
  predicate EarliestAt(checkers: seq<Checker>, line: string, a: nat)
    requires |line| < I32Max && a < |checkers|
  {
    forall k :: 0 <= k < |checkers| ==> LeftmostIdx(checkers[a], line) <= LeftmostIdx(checkers[k], line)
  }

  /** Checker `b`'s pattern occurs no earlier than any other checker's (an absent one counts as
      `i32::MIN`). */
  predicate LatestAt(checkers: seq<Checker>, line: string, b: nat)
    requires b < |checkers|
  {
    forall k :: 0 <= k < |checkers| ==> RightmostIndex(checkers[k], line) <= RightmostIndex(checkers[b], line)
  }

  /** The checker `min_by_key` picks over `leftmost_idx`. */
  function FirstIndex(line: string, checkers: seq<Checker>): (a: nat)
    requires checkers != [] && |line| < I32Max
    ensures a < |checkers| && EarliestAt(checkers, line, a)
  {
    var keys := Leftmost(checkers, line);
    assert forall k :: 0 <= k < |checkers| ==> keys[k] == LeftmostIdx(checkers[k], line);
    MinByKey(keys)
  }

  /** The checker `max_by_key` picks over `rightmost_index`. */
  function LastIndex(line: string, checkers: seq<Checker>): (b: nat)
    requires checkers != []
    ensures b < |checkers| && LatestAt(checkers, line, b)
  {
    var keys := Rightmost(checkers, line);
    assert forall k :: 0 <= k < |checkers| ==> keys[k] == RightmostIndex(checkers[k], line);
    MaxByKey(keys)
  }

  /** The digit of the checker whose pattern occurs first. */
  function FirstDigit(line: string, checkers: seq<Checker>): nat
    requires checkers != [] && |line| < I32Max
  {
    checkers[FirstIndex(line, checkers)].Value()
  }

  /** The digit of the checker whose pattern occurs last. */
  function LastDigit(line: string, checkers: seq<Checker>): nat
    requires checkers != []
  {
    checkers[LastIndex(line, checkers)].Value()
  }

  /** `parse_line`: first digit times ten plus last digit (`unwrap` demands at least one checker).
      The tens digit belongs to a checker whose pattern occurs no later than any other's, the units
      digit to one whose pattern occurs no earlier than any other's. */
  function ParseLine(line: string, checkers: seq<Checker>): (r: nat)
    requires checkers != [] && |line| < I32Max
    ensures exists a: nat, b: nat ::
              && a < |checkers| && b < |checkers|
              && EarliestAt(checkers, line, a) && LatestAt(checkers, line, b)
              && r == checkers[a].Value() * 10 + checkers[b].Value()
    ensures Digits19(checkers) ==> 11 <= r <= 99
  {
    var a, b := FirstIndex(line, checkers), LastIndex(line, checkers);
    checkers[a].Value() * 10 + checkers[b].Value()
  }

  /** The checker of `part1`: the characters '1' to '9'. */
  function Part1Checker(): seq<Checker>
  {
    [Digit('1', 1), Digit('2', 2), Digit('3', 3), Digit('4', 4), Digit('5', 5),
     Digit('6', 6), Digit('7', 7), Digit('8', 8), Digit('9', 9)]
  }

  /** `part2_checker`: the characters '1' to '9' and the words "one" to "nine". */
  function Part2Checker(): (r: seq<Checker>)
    ensures |r| == 18 && r[..9] == Part1Checker()
    ensures forall k :: 9 <= k < 18 ==> r[k].Word? && r[k].Value() == k - 8
  {
    var words := [Word("one", 1), Word("two", 2), Word("three", 3), Word("four", 4), Word("five", 5),
                  Word("six", 6), Word("seven", 7), Word("eight", 8), Word("nine", 9)];
    assert forall k :: 0 <= k < 9 ==> words[k].Word? && words[k].Value() == k + 1;
    Part1Checker() + words
  }

  /** Every checker stands for a digit from 1 to 9. */
  predicate Digits19(checkers: seq<Checker>)
  {
    forall k :: 0 <= k < |checkers| ==> 1 <= checkers[k].Value() <= 9
  }

  /** `p` is a prefix of `q`. */
  predicate IsPrefix(p: string, q: string)
  {
    |p| <= |q| && q[..|p|] == p
  }

  /** No checker's pattern is a prefix of another's, so two checkers never match at one offset. */
  predicate PrefixFree(checkers: seq<Checker>)
  {
    forall a, b :: 0 <= a < |checkers| && 0 <= b < |checkers| && a != b ==>
      !IsPrefix(checkers[a].Pattern(), checkers[b].Pattern())
  }

  /** Every pattern is non-empty; a one-character pattern is a digit character and a longer one
      starts with a letter. */
  predicate Shaped(checkers: seq<Checker>)
  {
    forall k :: 0 <= k < |checkers| ==>
      |checkers[k].Pattern()| >= 1 &&
      ('1' <= checkers[k].Pattern()[0] <= '9' <==> |checkers[k].Pattern()| == 1)
  }

  /** The first two characters of a pattern, padded with a blank. */
  function Head(p: string): (char, char)
    requires |p| >= 1
  {
    (p[0], if |p| >= 2 then p[1] else ' ')
  }

  /** With checkers for the digits 1 to 9 a calibration value is a two-digit number without a 0. */
  lemma ParseLineRange(line: string, checkers: seq<Checker>)
    requires checkers != [] && |line| < I32Max && Digits19(checkers)
    ensures 1 <= FirstDigit(line, checkers) <= 9 && 1 <= LastDigit(line, checkers) <= 9
    ensures 11 <= ParseLine(line, checkers) <= 99
  {
    var m := MinByKey(Leftmost(checkers, line));
    var n := MaxByKey(Rightmost(checkers, line));
    assert 1 <= checkers[m].Value() <= 9 && 1 <= checkers[n].Value() <= 9;
  }

  /** Among shaped patterns, a prefix has the head of the longer pattern. */
  lemma PrefixSameHead(p: string, q: string)
    requires |p| >= 1 && ('1' <= p[0] <= '9' <==> |p| == 1)
    requires |q| >= 1 && ('1' <= q[0] <= '9' <==> |q| == 1)
    requires IsPrefix(p, q)
    ensures Head(p) == Head(q)
  {
    assert q[..|p|][0] == q[0];
    if |p| >= 2 {
      assert q[..|p|][1] == q[1];
    }
  }

  /** Which entry of the second checker a head belongs to. */
  function Part2Index(h: (char, char)): int
  {
    match h.0
    case 'o' => 9
    case 't' => if h.1 == 'w' then 10 else 11
    case 'f' => if h.1 == 'o' then 12 else 13
    case 's' => if h.1 == 'i' then 14 else 15
    case 'e' => 16
    case 'n' => 17
    case _ => h.0 as int - '1' as int
  }

  lemma Part2CheckerShape()
    ensures Shaped(Part2Checker()) && Digits19(Part2Checker())
  {
  }

  /** Every entry of the second checker is recovered from its head. */
  lemma Part2CheckerHeads()
    ensures forall k :: 0 <= k < |Part2Checker()| ==> Part2Index(Head(Part2Checker()[k].Pattern())) == k
  {
  }

  /** Both checkers are prefix free and stand for the digits 1 to 9. */
  lemma CheckersWellBuilt()
    ensures Digits19(Part1Checker()) && PrefixFree(Part1Checker())
    ensures Digits19(Part2Checker()) && PrefixFree(Part2Checker())
  {
    var cs := Part2Checker();
    Part2CheckerShape();
    Part2CheckerHeads();
    forall a, b | 0 <= a < |cs| && 0 <= b < |cs| && IsPrefix(cs[a].Pattern(), cs[b].Pattern())
      ensures a == b
    {
      PrefixSameHead(cs[a].Pattern(), cs[b].Pattern());
    }
    assert Part1Checker() == cs[..9];
  }

  /** Two patterns that occur at one offset agree on the shorter one's length. */
  lemma CommonPrefix(p: string, q: string, line: string, i: int)
    requires OccursAt(p, line, i) && OccursAt(q, line, i) && |p| <= |q|
    ensures IsPrefix(p, q)
  {
    assert q[..|p|] == line[i..i + |p|];
  }

  /** Two checkers of a prefix-free list never match at the same offset. */
  lemma NoSharedOffset(checkers: seq<Checker>, line: string, a: nat, b: nat, i: int)
    requires PrefixFree(checkers) && a < |checkers| && b < |checkers| && a != b
    requires OccursAt(checkers[a].Pattern(), line, i)
    ensures !OccursAt(checkers[b].Pattern(), line, i)
  {
    var p, q := checkers[a].Pattern(), checkers[b].Pattern();
    if OccursAt(q, line, i) {
      if |p| <= |q| {
        CommonPrefix(p, q, line, i);
      } else {
        CommonPrefix(q, p, line, i);
      }
      assert false;
    }
  }

  /** Where the search starts when nothing occurs below offset `i`. */
  lemma LeftmostFrom(ch: Checker, line: string, i: nat)
    requires |line| < I32Max && i <= |line|
    requires forall j :: j < i ==> !OccursAt(ch.Pattern(), line, j)
    ensures OccursAt(ch.Pattern(), line, i) ==> LeftmostIdx(ch, line) == i
    ensures !OccursAt(ch.Pattern(), line, i) ==> LeftmostIdx(ch, line) > i
  {
    var r := LeftmostIdx(ch, line);
    if r != I32Max {
      assert OccursAt(ch.Pattern(), line, r);
      assert r >= i;
    }
  }

  /** The first digit is that of the checker matching earliest in the line. */
  lemma {:induction false} FirstDigitIsEarliest(line: string, checkers: seq<Checker>, a: nat, i: nat)
    requires |line| < I32Max && PrefixFree(checkers) && a < |checkers|
    requires OccursAt(checkers[a].Pattern(), line, i)
    requires forall b, j :: 0 <= b < |checkers| && j < i ==> !OccursAt(checkers[b].Pattern(), line, j)
    ensures FirstDigit(line, checkers) == checkers[a].Value()
  {
    var keys := Leftmost(checkers, line);
    LeftmostFrom(checkers[a], line, i);
    assert keys[a] == i;
    forall b | 0 <= b < |checkers| && b != a ensures keys[b] > i {
      NoSharedOffset(checkers, line, a, b, i);
      LeftmostFrom(checkers[b], line, i);
    }
    var m := MinByKey(keys);
    assert keys[m] <= i;
    assert m == a;
  }

  /** The last digit is that of the checker matching latest in the line. */
  lemma {:induction false} LastDigitIsLatest(line: string, checkers: seq<Checker>, a: nat, i: nat)
    requires PrefixFree(checkers) && a < |checkers|
    requires OccursAt(checkers[a].Pattern(), line, i)
    requires forall b, j :: 0 <= b < |checkers| && j > i ==> !OccursAt(checkers[b].Pattern(), line, j)
    ensures LastDigit(line, checkers) == checkers[a].Value()
  {
    var keys := Rightmost(checkers, line);
    assert keys[a] == i;
    forall b | 0 <= b < |checkers| && b != a ensures keys[b] < i {
      NoSharedOffset(checkers, line, a, b, i);
    }
    var m := MaxByKey(keys);
    assert keys[m] >= i;
    assert m == a;
  }

  /** A line where no checker matches: every key ties, so `min_by_key` keeps the first checker and
      `max_by_key` the last one. */
  lemma NoMatchLine(line: string, checkers: seq<Checker>)
    requires checkers != [] && |line| < I32Max
    requires forall b, j :: 0 <= b < |checkers| ==> !OccursAt(checkers[b].Pattern(), line, j)
    ensures ParseLine(line, checkers) == checkers[0].Value() * 10 + checkers[|checkers| - 1].Value()
  {
    var left, right := Leftmost(checkers, line), Rightmost(checkers, line);
    assert left[0] == I32Max;
    assert right[|checkers| - 1] == I32Min;
  }

  /** In "one" no pattern of the second checker occurs after offset 0. */
  lemma OneHasNoLaterMatch(b: nat, j: int)
    requires b < |Part2Checker()| && j > 0
    ensures !OccursAt(Part2Checker()[b].Pattern(), "one", j)
  {
    var p := Part2Checker()[b].Pattern();
    if b < 9 {
      assert |p| == 1 && '1' <= p[0] <= '9';
    } else {
      assert |p| >= 3;
    }
  }

  /** The unit test of the source: "one" reads as 11 with the second checker. */
  lemma ParseOne()
    ensures ParseLine("one", Part2Checker()) == 11
  {
    var cs := Part2Checker();
    CheckersWellBuilt();
    assert cs[9] == Word("one", 1);
    assert OccursAt(cs[9].Pattern(), "one", 0);
    FirstDigitIsEarliest("one", cs, 9, 0);
    forall b, j | 0 <= b < |cs| && j > 0 ensures !OccursAt(cs[b].Pattern(), "one", j) {
      OneHasNoLaterMatch(b, j);
    }
    LastDigitIsLatest("one", cs, 9, 0);
  }

  /** `part1`/`part2` after the input is split into lines: the sum of the calibration values. */
  function SumLines(lines: seq<string>, checkers: seq<Checker>): (total: nat)
    requires checkers != [] && forall k :: 0 <= k < |lines| ==> |lines[k]| < I32Max
    requires Digits19(checkers)
    ensures 11 * |lines| <= total <= 99 * |lines|
  {
    if lines == [] then 0
    else
      ParseLineRange(lines[0], checkers);
      ParseLine(lines[0], checkers) + SumLines(lines[1..], checkers)
  }

  /** `part1`: the sum of the calibration values read with digit characters only. */
  function Part1(lines: seq<string>): (total: nat)
    requires forall k :: 0 <= k < |lines| ==> |lines[k]| < I32Max
    ensures 11 * |lines| <= total <= 99 * |lines|
  {
    CheckersWellBuilt();
    SumLines(lines, Part1Checker())
  }

  /** `part2`: the sum of the calibration values read with digit characters and digit words. */
  function Part2(lines: seq<string>): (total: nat)
    requires forall k :: 0 <= k < |lines| ==> |lines[k]| < I32Max
    ensures 11 * |lines| <= total <= 99 * |lines|
  {
    CheckersWellBuilt();
    SumLines(lines, Part2Checker())
  }
}
