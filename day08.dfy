/** Day 8, "Haunted Wasteland": a walk over a network of nodes, following left/right instructions
    that repeat forever, and the least common multiple of the walk lengths. */
module DesertMap {
  import opened Wrappers
  import opened Divisibility

  datatype Dir = L | R

  /** The parsed input: the instruction list and, per node, its left and right neighbours. */
  datatype Network = Network(dirs: seq<Dir>, mappings: map<string, (string, string)>)

  predicate EndsWith(s: string, c: char)
  {
    |s| > 0 && s[|s| - 1] == c
  }

  /** The node reached from `node` by move number `k` (counting from 0), which follows the
      instruction at `k mod |dirs|`. */
  function Next(net: Network, node: string, k: nat): string
    requires |net.dirs| > 0 && node in net.mappings
  {
    match net.dirs[k % |net.dirs|]
    case L => net.mappings[node].0
    case R => net.mappings[node].1
  }

  /** `node` is the left or the right neighbour of some node of the network. */
  ghost predicate Neighbour(net: Network, node: string)
  {
    exists n :: n in net.mappings && (net.mappings[n].0 == node || net.mappings[n].1 == node)
  }

  /** The node after `k` moves from `start`; None once a node without a mapping was left (where
      `mappings[current]` panics).  After a move the walk stands on a neighbour named in the
      mappings of the node it left. */
  function Walk(net: Network, start: string, k: nat): (r: Option<string>)
    requires |net.dirs| > 0
    ensures k == 0 ==> r == Some(start)
    ensures k > 0 && r.Some? ==> Neighbour(net, r.value)
  {
    if k == 0 then Some(start)
    else match Walk(net, start, k - 1)
      case None => None
      case Some(n) => if n in net.mappings then Some(Next(net, n, k - 1)) else None
  }

  /** After `k` moves the walk stands on a node whose name ends in 'Z'. */
  predicate Arrived(net: Network, start: string, k: nat)
    requires |net.dirs| > 0
  {
    Walk(net, start, k).Some? && EndsWith(Walk(net, start, k).value, 'Z')
  }

  /** The first arrival at step `k` or later, looking no further than step `fuel`. */
  function FirstArrivalFrom(net: Network, start: string, k: nat, fuel: nat): Option<nat>
    requires |net.dirs| > 0
    decreases fuel + 1 - k
  {
    if k > fuel then None
    else if Arrived(net, start, k) then Some(k)
    else FirstArrivalFrom(net, start, k + 1, fuel)
  }

  /** The number of moves until the walk first stands on a node ending in 'Z', if that happens
      within `fuel` moves. */
  function FirstArrival(net: Network, start: string, fuel: nat): Option<nat>
    requires |net.dirs| > 0
  {
    FirstArrivalFrom(net, start, 0, fuel)
  }

  /** `FirstArrival` is the least arrival step, and None exactly when no step up to `fuel` arrives. */
  lemma FirstArrivalMeaning(net: Network, start: string, fuel: nat)
    requires |net.dirs| > 0
    ensures FirstArrival(net, start, fuel).Some? ==>
      var n := FirstArrival(net, start, fuel).value;
      n <= fuel && Arrived(net, start, n) && forall k :: 0 <= k < n ==> !Arrived(net, start, k)
    ensures FirstArrival(net, start, fuel).None? <==>
      forall k :: 0 <= k <= fuel ==> !Arrived(net, start, k)
  {
    FirstArrivalFromMeaning(net, start, 0, fuel);
  }

  lemma {:induction false} FirstArrivalFromMeaning(net: Network, start: string, k: nat, fuel: nat)
    requires |net.dirs| > 0
    ensures FirstArrivalFrom(net, start, k, fuel).Some? ==>
      var n := FirstArrivalFrom(net, start, k, fuel).value;
      k <= n <= fuel && Arrived(net, start, n) && forall j :: k <= j < n ==> !Arrived(net, start, j)
    ensures FirstArrivalFrom(net, start, k, fuel).None? <==>
      forall j :: k <= j <= fuel ==> !Arrived(net, start, j)
    decreases fuel + 1 - k
  {
    if k <= fuel && !Arrived(net, start, k) {
      FirstArrivalFromMeaning(net, start, k + 1, fuel);
    }
  }

  /** A walk that reached a node without a mapping never arrives later. */
  lemma {:induction false} NoArrivalAfterDeadEnd(net: Network, start: string, k: nat, fuel: nat)
    requires |net.dirs| > 0 && Walk(net, start, k).None?
    ensures FirstArrivalFrom(net, start, k, fuel) == None
    decreases fuel + 1 - k
  {
    if k <= fuel {
      NoArrivalAfterDeadEnd(net, start, k + 1, fuel);
    }
  }

  /** The cycling instruction iterator: the position after `k + 1` moves, from the one after `k`. */
  lemma ModNext(k: nat, n: nat)
    requires n > 0
    ensures (k + 1) % n == if k % n + 1 == n then 0 else k % n + 1
  {
    assert k == (k / n) * n + k % n;
    if k % n + 1 == n {
      DivisionUnique(k + 1, n, k / n + 1, 0);
    } else {
      DivisionUnique(k + 1, n, k / n, k % n + 1);
    }
  }

  /** `get_cycle_length`: follow the cycling instructions from `start` until a node ends in 'Z' and
      count the moves.  None when `fuel` moves pass without arriving or a node has no mapping. */
  method CycleLength(net: Network, start: string, fuel: nat) returns (r: Option<nat>)
    requires |net.dirs| > 0
    ensures r == FirstArrival(net, start, fuel)
  {
    var current := start;
    var steps: nat := 0;
    var pos := 0;
    while !EndsWith(current, 'Z')
      invariant steps <= fuel
      invariant pos == steps % |net.dirs|
      invariant Walk(net, start, steps) == Some(current)
      invariant FirstArrivalFrom(net, start, steps, fuel) == FirstArrival(net, start, fuel)
      decreases fuel - steps
    {
      if steps == fuel {
        return None;
      }
      if current !in net.mappings {
        NoArrivalAfterDeadEnd(net, start, steps + 1, fuel);
        return None;
      }
      var m := net.mappings[current];
      current := match net.dirs[pos] case L => m.0 case R => m.1;
      ModNext(steps, |net.dirs|);
      steps := steps + 1;
      pos := if pos + 1 == |net.dirs| then 0 else pos + 1;
    }
    r := Some(steps);
  }

  /** A start node that already ends in 'Z' gives length 0. */
  lemma ArrivedAtStart(net: Network, start: string, fuel: nat)
    requires |net.dirs| > 0
    ensures FirstArrival(net, start, fuel) == Some(0) <==> EndsWith(start, 'Z')
  {
    assert Walk(net, start, 0) == Some(start);
    FirstArrivalFromMeaning(net, start, 1, fuel);
  }

  /** After whole rounds of instructions the walk continues as if it started afresh from where it
      stands. */
  lemma {:induction false} WalkRestarts(net: Network, start: string, a: nat, b: nat)
    requires |net.dirs| > 0 && a % |net.dirs| == 0 && Walk(net, start, a).Some?
    ensures Walk(net, start, a + b) == Walk(net, Walk(net, start, a).value, b)
  {
    if b > 0 {
      WalkRestarts(net, start, a, b - 1);
      ModShift(a, b - 1, |net.dirs|);
      var m := Walk(net, start, a).value;
      match Walk(net, m, b - 1)
      case None =>
      case Some(x) =>
        if x in net.mappings {
          assert Next(net, x, a + b - 1) == Next(net, x, b - 1);
        }
    }
  }

  lemma ModShift(a: nat, j: nat, n: nat)
    requires n > 0 && a % n == 0
    ensures (a + j) % n == j % n
  {
    assert a == (a / n) * n;
    assert j == (j / n) * n + j % n;
    DivisionUnique(a + j, n, a / n + j / n, j % n);
  }

  /** `part1`: the walk length from "AAA".  It stops at the first node ending in 'Z', whichever. */
  method Part1(net: Network, fuel: nat) returns (r: Option<nat>)
    requires |net.dirs| > 0
    ensures r == FirstArrival(net, "AAA", fuel)
  {
    r := CycleLength(net, "AAA", fuel);
  }

  /** A network in which "AAA" leads to "BBZ": part 1 stops there, not at "ZZZ". */
  lemma StopsAtAnyZ()
    ensures var net := Network([L], map["AAA" := ("BBZ", "BBZ"), "BBZ" := ("ZZZ", "ZZZ")]);
      FirstArrival(net, "AAA", 5) == Some(1)
  {
    var net := Network([L], map["AAA" := ("BBZ", "BBZ"), "BBZ" := ("ZZZ", "ZZZ")]);
    assert !Arrived(net, "AAA", 0);
    assert Walk(net, "AAA", 1) == Some("BBZ");
  }

  /** The start nodes of part 2: every key ending in 'A'. */
  function Starts(net: Network): set<string>
  {
    set k | k in net.mappings.Keys && EndsWith(k, 'A')
  }

  /** The walk lengths of the given starts that arrive within `fuel` moves. */
  ghost function LengthsOf(net: Network, fuel: nat, starts: set<string>): set<nat>
    requires |net.dirs| > 0
  {
    set s | s in starts && FirstArrival(net, s, fuel).Some? :: FirstArrival(net, s, fuel).value
  }

  lemma LengthsInsert(net: Network, fuel: nat, done: set<string>, s: string)
    requires |net.dirs| > 0 && FirstArrival(net, s, fuel).Some?
    ensures LengthsOf(net, fuel, done + {s}) == LengthsOf(net, fuel, done) + {FirstArrival(net, s, fuel).value}
  {
  }

  /** `part2`: the lcm of the walk lengths from all start nodes, folded from 1.  The starts are taken
      in an arbitrary order, as `HashMap::keys` yields them; the result is the least common
      multiple of the lengths whatever the order. */
  method Part2(net: Network, fuel: nat) returns (r: Option<nat>)
    requires |net.dirs| > 0
    ensures r.Some? <==> forall s :: s in Starts(net) ==> FirstArrival(net, s, fuel).Some?
    ensures r.Some? ==> IsLcmOf(r.value, LengthsOf(net, fuel, Starts(net)))
  {
    var remaining := Starts(net);
    var acc: nat := 1;
    ghost var done: set<string> := {};
    LcmOfEmpty(1);
    while remaining != {}
      invariant remaining + done == Starts(net) && remaining !! done
      invariant forall s :: s in done ==> FirstArrival(net, s, fuel).Some?
      invariant IsLcmOf(acc, LengthsOf(net, fuel, done))
      decreases remaining
    {
      var s :| s in remaining;
      var len := CycleLength(net, s, fuel);
      if len.None? {
        return None;
      }
      LcmOfInsert(acc, LengthsOf(net, fuel, done), len.value);
      LengthsInsert(net, fuel, done, s);
      acc := Lcm(acc, len.value);
      done := done + {s};
      remaining := remaining - {s};
    }
    r := Some(acc);
  }

  /** The part 2 answer does not depend on the order of the starts, and is 1 without starts. */
  lemma Part2Determined(net: Network, fuel: nat, a: nat, b: nat)
    requires |net.dirs| > 0
    requires IsLcmOf(a, LengthsOf(net, fuel, Starts(net))) && IsLcmOf(b, LengthsOf(net, fuel, Starts(net)))
    ensures a == b
    ensures Starts(net) == {} ==> a == 1
  {
    LcmOfUnique(a, b, LengthsOf(net, fuel, Starts(net)));
    LcmOfEmpty(a);
  }
}
