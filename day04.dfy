/** Day 4, scratchcards (day04/src/lib.rs).

    A card lists winning numbers and the numbers you have.  Part 1 scores each card by doubling per
    match; part 2 lets a card with `m` matches win one extra copy of each of the next `m` cards, per
    copy held, and counts the cards in the end. */
module Scratchcards {

  datatype Card = Card(id: nat, winning: seq<nat>, yours: seq<nat>)

  /** The entries of `yours` that occur in `winning`, each entry counted on its own. */
  function MatchCount(yours: seq<nat>, winning: seq<nat>): (m: nat)
    ensures m <= |yours|
    ensures m == 0 <==> forall k :: 0 <= k < |yours| ==> yours[k] !in winning
    ensures m == |yours| <==> forall k :: 0 <= k < |yours| ==> yours[k] in winning
  {
    if yours == [] then 0
    else
      var rest := MatchCount(yours[1..], winning);
      assert forall k :: 1 <= k < |yours| ==> yours[k] == yours[1..][k - 1];
      (if yours[0] in winning then 1 else 0) + rest
  }

  /** Matches of a card. */
  function Matches(card: Card): nat
  {
    MatchCount(card.yours, card.winning)
  }

  /** Matching counts over two halves of the numbers add up. */
  lemma {:induction false} MatchCountAppend(a: seq<nat>, b: seq<nat>, winning: seq<nat>)
    ensures MatchCount(a + b, winning) == MatchCount(a, winning) + MatchCount(b, winning)
  {
    if a == [] {
      assert a + b == b;
    } else {
      MatchCountAppend(a[1..], b, winning);
      assert (a + b)[1..] == a[1..] + b;
    }
  }

  /** The fold of `part1` applied to `n` matching numbers: 1 for the first, doubled for each next. */
  function Doubling(n: nat): nat
  {
    if n == 0 then 0 else
      var acc := Doubling(n - 1);
      if acc == 0 then 1 else acc * 2
  }

  function Pow2(n: nat): (p: nat)
    ensures p >= 1
  {
    if n == 0 then 1 else 2 * Pow2(n - 1)
  }

  /** The score of a card is 0 without matches and 2^(m-1) with m matches. */
  lemma {:induction false} DoublingIsPower(n: nat)
    ensures Doubling(n) == if n == 0 then 0 else Pow2(n - 1)
  {
    if n > 0 {
      DoublingIsPower(n - 1);
    }
  }

  /** The points of a card: 0 without matches, otherwise 2 to the power of one less than the
      number of matches. */
  function Score(card: Card): (points: nat)
    ensures points == if Matches(card) == 0 then 0 else Pow2(Matches(card) - 1)
  {
    DoublingIsPower(Matches(card));
    Doubling(Matches(card))
  }

  /** `part1`: the sum of the scores, 0 exactly when no card has a match. */
  function Part1(cards: seq<Card>): (total: nat)
    ensures total == 0 <==> forall k :: 0 <= k < |cards| ==> Matches(cards[k]) == 0
  {
    assert forall k :: 1 <= k < |cards| ==> cards[1..][k - 1] == cards[k];
    if cards == [] then 0 else Score(cards[0]) + Part1(cards[1..])
  }

  /** The match counts of all cards. */
  function MatchCounts(cards: seq<Card>): (ms: seq<nat>)
    ensures |ms| == |cards|
  {
    seq(|cards|, k requires 0 <= k < |cards| => Matches(cards[k]))
  }

  /** Copies of card `k` held in the end: the original plus one per copy of each earlier card `j`
      that wins it, i.e. with `j < k <= j + ms[j]`. */
  function Copies(ms: seq<nat>, k: nat): (n: nat)
    requires k < |ms|
    ensures n >= 1
    decreases k, 1
  {
    1 + WonBy(ms, k, k)
  }

  /** Copies of card `k` won from the cards before `j`. */
  function WonBy(ms: seq<nat>, k: nat, j: nat): nat
    requires k < |ms| && j <= k
    decreases k, 0, j
  {
    if j == 0 then 0
    else WonBy(ms, k, j - 1) + if k <= j - 1 + ms[j - 1] then Copies(ms, j - 1) else 0
  }

  /** The number of cards held in the end, over the first `n` cards. */
  function TotalCopies(ms: seq<nat>, n: nat): nat
    requires n <= |ms|
  {
    if n == 0 then 0 else TotalCopies(ms, n - 1) + Copies(ms, n - 1)
  }

  /** No card wins anything when no card has a match. */
  lemma {:induction false} NoMatchesNoWins(ms: seq<nat>, k: nat, j: nat)
    requires k < |ms| && j <= k && forall i :: 0 <= i < |ms| ==> ms[i] == 0
    ensures WonBy(ms, k, j) == 0
  {
    if j > 0 {
      NoMatchesNoWins(ms, k, j - 1);
    }
  }

  /** Every card is held at least once, and exactly once when no card has a match. */
  lemma {:induction false} TotalCopiesBounds(ms: seq<nat>, n: nat)
    requires n <= |ms|
    ensures TotalCopies(ms, n) >= n
    ensures (forall i :: 0 <= i < |ms| ==> ms[i] == 0) ==> TotalCopies(ms, n) == n
  {
    if n > 0 {
      TotalCopiesBounds(ms, n - 1);
      if forall i :: 0 <= i < |ms| ==> ms[i] == 0 {
        NoMatchesNoWins(ms, n - 1, n - 1);
      }
    }
  }

  /** The inner loop of `part2`: the `matches` entries after `idx` (as far as there are any) each
      grow by the copies held of card `idx`; nothing else changes. */
  method Propagate(numCards: array<nat>, idx: nat, matches: nat)
    requires idx < numCards.Length
    modifies numCards
    ensures forall k :: 0 <= k < numCards.Length ==>
      numCards[k] == old(numCards[k]) + if idx < k <= idx + matches then old(numCards[idx]) else 0
  {
    var incAmount := numCards[idx];
    var hi := if idx + 1 + matches < numCards.Length then idx + 1 + matches else numCards.Length;
    for j := idx + 1 to hi
      invariant forall k :: 0 <= k < numCards.Length ==>
        numCards[k] == old(numCards[k]) + if idx < k < j then incAmount else 0
    {
      numCards[j] := numCards[j] + incAmount;
    }
  }

  /** `part2`: the number of cards held once every card has been processed. */
  method Part2(cards: seq<Card>) returns (total: nat)
    ensures total == TotalCopies(MatchCounts(cards), |cards|)
    ensures total >= |cards|
    ensures (forall k :: 0 <= k < |cards| ==> Matches(cards[k]) == 0) ==> total == |cards|
  {
    ghost var ms := MatchCounts(cards);
    var numCards := new nat[|cards|](_ => 1);
    for idx := 0 to |cards|
      invariant forall k :: 0 <= k < |cards| ==> numCards[k] == 1 + WonBy(ms, k, if k < idx then k else idx)
    {
      var matches := MatchCount(cards[idx].yours, cards[idx].winning);
      assert numCards[idx] == Copies(ms, idx);
      Propagate(numCards, idx, matches);
    }
    total := 0;
    for k := 0 to |cards|
      invariant total == TotalCopies(ms, k)
    {
      total := total + numCards[k];
    }
    TotalCopiesBounds(ms, |cards|);
  }
}
