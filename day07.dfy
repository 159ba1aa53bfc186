/** Day 7, camel cards (day07/src/lib.rs).

    A hand is five card characters.  Cards are ordered J < 2 < ... < 9 < T < F < Q < K < A,
    where 'J' is the joker and 'F' is the stand-in that part 1 substitutes for a jack.  Hands are
    classified by `hand_type`, with jokers counting as wildcards, ordered by type and then card by
    card, and the bids are paid out by rank. */
module CamelCards {
  import opened Wrappers
  import opened Sorting

  datatype Ordering = Less | Equal | Greater
  {
    function Reverse(): Ordering
    {
      match this
      case Less => Greater
      case Equal => Equal
      case Greater => Less
    }
  }

  /** The ordering of two integers. */
  function Compare(x: int, y: int): (o: Ordering)
    ensures o == Equal <==> x == y
    ensures o == Less <==> x < y
  {
    if x < y then Less else if x == y then Equal else Greater
  }

  /** The strength of a card: its place in J 2 3 4 5 6 7 8 9 T F Q K A, and 14 for a character
      that is not a card. */
  function Rank(c: char): int
  {
    match c
    case 'J' => 0
    case '2' => 1
    case '3' => 2
    case '4' => 3
    case '5' => 4
    case '6' => 5
    case '7' => 6
    case '8' => 7
    case '9' => 8
    case 'T' => 9
    case 'F' => 10
    case 'Q' => 11
    case 'K' => 12
    case 'A' => 13
    case _ => 14
  }

  predicate IsCard(c: char)
  {
    Rank(c) < 14
  }

  predicate IsAsciiDigit(c: char)
  {
    '0' <= c <= '9'
  }

  /** `Card::cmp`: jokers first, then digits by character code, then the letters T < F < Q < K < A
      through the arms of the `match`.  The catch-all arm is unreachable for cards of the alphabet. */
  function CardCmp(a: char, b: char): (o: Ordering)
    requires IsCard(a) && IsCard(b)
    ensures o == Compare(Rank(a), Rank(b))
  {
    if a == b then Equal
    else if a == 'J' then Less
    else if b == 'J' then Greater
    else if IsAsciiDigit(a) then
      if IsAsciiDigit(b) then Compare(a as int, b as int) else Less
    else if IsAsciiDigit(b) then Greater
    else if a == 'A' then Greater
    else if b == 'A' then Less
    else if a == 'K' then Greater
    else if b == 'K' then Less
    else if a == 'Q' then Greater
    else if b == 'Q' then Less
    else if a == 'F' then Greater
    else if b == 'F' then Less
    else assert false; Equal
  }

  /** Distinct cards have distinct ranks, and ranks lie in 0..13. */
  lemma RankInjective(a: char, b: char)
    requires IsCard(a) && IsCard(b)
    ensures 0 <= Rank(a) < 14
    ensures Rank(a) == Rank(b) <==> a == b
  {
  }

  /** `Card::cmp` is a total order: it says Equal exactly on equal cards, swapping the cards reverses
      it, and it is transitive. */
  lemma CardCmpTotalOrder(a: char, b: char, c: char)
    requires IsCard(a) && IsCard(b) && IsCard(c)
    ensures CardCmp(a, b) == Equal <==> a == b
    ensures CardCmp(b, a) == CardCmp(a, b).Reverse()
    ensures CardCmp(a, b) == Less && CardCmp(b, c) == Less ==> CardCmp(a, c) == Less
  {
    RankInjective(a, b);
  }

  // ---------------------------------------------------------------------------------------------
  // Hand types

  /** `HandType`, weakest first (the derived order follows the declaration). */
  datatype HandType = HighCard | OnePair | TwoPair | ThreeOfAKind | FullHouse | FourOfAKind | FiveOfAKind
  {
    function Strength(): nat
    {
      match this
      case HighCard => 0
      case OnePair => 1
      case TwoPair => 2
      case ThreeOfAKind => 3
      case FullHouse => 4
      case FourOfAKind => 5
      case FiveOfAKind => 6
    }
  }

  predicate AllCards(s: seq<char>)
  {
    forall k :: 0 <= k < |s| ==> IsCard(s[k])
  }

  /** The `take_while` count of jokers at the head of the sorted cards. */
  function LeadingJokers(s: seq<char>): (n: nat)
    ensures n <= |s|
    ensures forall k :: 0 <= k < n ==> s[k] == 'J'
    ensures n < |s| ==> s[n] != 'J'
  {
    if s == [] || s[0] != 'J' then 0 else 1 + LeadingJokers(s[1..])
  }

  /** The window of `w` cards starting at `i` lies in `s`, and each of its cards equals its last. */
  predicate UniformAt(s: seq<char>, i: nat, w: nat)
  {
    1 <= w && i + w <= |s| && forall k :: i <= k < i + w ==> s[k] == s[i + w - 1]
  }

  /** `windows(w).any(|win| win.iter().all(|c| c == &win[w - 1]))`. */
  predicate SomeUniformWindow(s: seq<char>, w: nat)
  {
    exists i: nat | i < |s| :: UniformAt(s, i, w)
  }

  /** `is_five_of_a_kind`: every card from `numJ` on equals the last card. */
  predicate MakesFive(numJ: nat, cards: seq<char>)
    requires |cards| == 5 && numJ <= 5
  {
    forall k :: numJ <= k < 5 ==> cards[k] == cards[4]
  }

  /** The loop of `is_five_of_a_kind`, which returns at the first card that differs from the last. */
  method IsFiveOfAKind(numJ: nat, cards: seq<char>) returns (b: bool)
    requires |cards| == 5 && numJ <= 5
    ensures b == MakesFive(numJ, cards)
  {
    for k := numJ to 5
      invariant forall m :: numJ <= m < k ==> cards[m] == cards[4]
    {
      if cards[k] != cards[4] {
        return false;
      }
    }
    return true;
  }

  /** `is_four_of_a_kind`: the jokers and a uniform window of the other cards make four; the
      `debug_assert!` asks for at most three jokers, so that the window is not empty. */
  predicate MakesFour(numJ: nat, cards: seq<char>): (b: bool)
    requires |cards| == 5 && numJ <= 3
    ensures b <==> UniformAt(cards, numJ, 4 - numJ) || UniformAt(cards, numJ + 1, 4 - numJ)
  {
    WindowTests(cards, numJ);
    SomeUniformWindow(cards[numJ..], 4 - numJ)
  }

  /** `is_full_house`, for at most two jokers. */
  predicate MakesFullHouse(numJ: nat, cards: seq<char>): (b: bool)
    requires |cards| == 5 && numJ <= 2
    ensures b ==> numJ <= 1
    ensures b && AllCards(cards) && SortedBy(cards, Rank) ==>
      forall k :: numJ <= k < 5 ==> cards[k] == cards[numJ] || cards[k] == cards[4]
  {
    assert FullHouseTest(numJ, cards) && AllCards(cards) && SortedBy(cards, Rank) ==>
      forall k :: numJ <= k < 5 ==> cards[k] == cards[numJ] || cards[k] == cards[4] by {
      if AllCards(cards) && SortedBy(cards, Rank) {
        SortedFive(cards);
      }
    }
    FullHouseTest(numJ, cards)
  }

  /** The comparisons of `is_full_house`. */
  predicate FullHouseTest(numJ: nat, cards: seq<char>)
    requires |cards| == 5 && numJ <= 2
  {
    if numJ == 2 then false
    else if numJ == 1 then cards[1] == cards[2] && cards[3] == cards[4]
    else (cards[0] == cards[2] && cards[3] == cards[4]) || (cards[0] == cards[1] && cards[2] == cards[4])
  }

  /** `is_three_of_a_kind`, for at most two jokers. */
  predicate MakesThree(numJ: nat, cards: seq<char>): (b: bool)
    requires |cards| == 5 && numJ <= 2
    ensures numJ == 2 ==> b
    ensures numJ <= 1 ==> (b <==>
      UniformAt(cards, numJ, 3 - numJ) || UniformAt(cards, numJ + 1, 3 - numJ) || UniformAt(cards, numJ + 2, 3 - numJ))
  {
    WindowTests(cards, numJ);
    numJ == 2 || SomeUniformWindow(cards[numJ..], 3 - numJ)
  }

  /** Adjacent pairs of equal cards: none exactly when no two neighbours are equal, and at most
      one per neighbouring pair. */
  function EqualNeighbours(s: seq<char>): (n: nat)
    ensures n == 0 <==> forall k :: 0 <= k < |s| - 1 ==> s[k] != s[k + 1]
    ensures |s| >= 1 ==> n <= |s| - 1
  {
    if |s| < 2 then 0
    else
      assert forall k :: 1 <= k < |s| - 1 ==> s[1..][k - 1] == s[k];
      (if s[0] == s[1] then 1 else 0) + EqualNeighbours(s[1..])
  }

  /** `count_pairs`, for at most one joker: the equal neighbours plus one pair per joker. */
  function CountPairs(numJ: nat, cards: seq<char>): (n: nat)
    requires numJ <= 1
    ensures numJ <= n
    ensures n == numJ <==> forall k :: 0 <= k < |cards| - 1 ==> cards[k] != cards[k + 1]
    ensures |cards| >= 1 ==> n <= |cards| - 1 + numJ
  {
    EqualNeighbours(cards) + numJ
  }

  /** The cards in the order `vec.sort()` leaves them. */
  function SortedCards(hand: seq<char>): seq<char>
  {
    SortByKey(hand, Rank)
  }

  /** `Draw::hand_type`: the chain of tests on the sorted cards, whose jokers come first. */
  function HandTypeOf(hand: seq<char>): (r: HandType)
    requires |hand| == 5
    ensures AllCards(hand) ==> forall b :: MostFrequent(hand, b) ==> r == StandardType(ReplaceJokers(hand, b))
  {
    var cards := SortedCards(hand);
    var r := Classify(LeadingJokers(cards), cards);
    assert AllCards(hand) ==> forall b :: MostFrequent(hand, b) ==> r == StandardType(ReplaceJokers(hand, b)) by {
      if AllCards(hand) {
        forall b | MostFrequent(hand, b) ensures r == StandardType(ReplaceJokers(hand, b)) {
          JokersAsWildcards(hand, b);
        }
      }
    }
    r
  }

  /** The if-chain of `hand_type` for `numJ` jokers in front of the sorted `cards`: the first test
      that holds decides.  The `debug_assert!`s of the helpers are the lemmas called here. */
  function Classify(numJ: nat, cards: seq<char>): (r: HandType)
    requires |cards| == 5 && numJ <= 5
    ensures numJ >= 4 ==> r == FiveOfAKind
    ensures numJ >= 3 ==> r.Strength() >= FourOfAKind.Strength()
    ensures numJ >= 2 ==> r.Strength() >= ThreeOfAKind.Strength()
  {
    if MakesFive(numJ, cards) then FiveOfAKind
    else
      JokersBelowFour(numJ, cards);
      if MakesFour(numJ, cards) then FourOfAKind
      else
        JokersBelowThree(numJ, cards);
        if MakesFullHouse(numJ, cards) then FullHouse
        else if MakesThree(numJ, cards) then ThreeOfAKind
        else
          JokersBelowTwo(numJ, cards);
          var pairs := CountPairs(numJ, cards);
          if pairs == 2 then TwoPair else if pairs == 1 then OnePair else HighCard
  }

  /** The `debug_assert!` of `is_four_of_a_kind`: four or five jokers are always five of a kind. */
  lemma JokersBelowFour(numJ: nat, cards: seq<char>)
    requires |cards| == 5 && numJ <= 5 && !MakesFive(numJ, cards)
    ensures numJ <= 3
  {
  }

  /** The `debug_assert!`s of `is_full_house` and `is_three_of_a_kind`: three jokers and any other
      card make four of a kind. */
  lemma JokersBelowThree(numJ: nat, cards: seq<char>)
    requires |cards| == 5 && numJ <= 3 && !MakesFour(numJ, cards)
    ensures numJ <= 2
  {
    assert UniformAt(cards[3..], 0, 1);
  }

  /** The `debug_assert!` of `count_pairs`: two jokers always make three of a kind. */
  lemma JokersBelowTwo(numJ: nat, cards: seq<char>)
    requires |cards| == 5 && numJ <= 2 && !MakesThree(numJ, cards)
    ensures numJ <= 1
  {
  }

  // ---------------------------------------------------------------------------------------------
  // The sorted cards

  lemma SortedCardsFacts(hand: seq<char>)
    requires |hand| == 5 && AllCards(hand)
    ensures var cards := SortedCards(hand);
      && |cards| == 5 && AllCards(cards) && SortedBy(cards, Rank)
      && multiset(cards) == multiset(hand)
  {
    var cards := SortedCards(hand);
    forall k | 0 <= k < |cards| ensures IsCard(cards[k]) {
      assert cards[k] in multiset(hand);
    }
  }

  /** `num_j` is the number of jokers in the hand, because the joker sorts below every other card. */
  lemma {:induction false} LeadingJokersCount(cards: seq<char>)
    requires AllCards(cards) && SortedBy(cards, Rank)
    ensures LeadingJokers(cards) == multiset(cards)['J']
  {
    if cards != [] {
      assert cards == [cards[0]] + cards[1..];
      if cards[0] == 'J' {
        LeadingJokersCount(cards[1..]);
      } else {
        forall k | 0 <= k < |cards| ensures cards[k] != 'J' {
          assert Rank(cards[0]) <= Rank(cards[k]);
        }
        assert 'J' !in cards;
      }
    }
  }

  /** The jokers of a hand: `num_j` counts them. */
  lemma JokersCounted(hand: seq<char>)
    requires |hand| == 5 && AllCards(hand)
    ensures LeadingJokers(SortedCards(hand)) == multiset(hand)['J']
  {
    SortedCardsFacts(hand);
    LeadingJokersCount(SortedCards(hand));
  }

  /** In sorted cards equal cards are neighbours: everything between two equal cards equals them. */
  lemma Contiguous(cards: seq<char>, i: nat, k: nat, j: nat)
    requires AllCards(cards) && SortedBy(cards, Rank)
    requires i < k < j < |cards| && cards[i] == cards[j]
    ensures cards[k] == cards[i]
  {
    assert Rank(cards[i]) <= Rank(cards[k]) <= Rank(cards[j]);
    RankInjective(cards[k], cards[i]);
  }

  // ---------------------------------------------------------------------------------------------
  // The usual classification

  /** How often card `c` occurs in the hand. */
  function Count(hand: seq<char>, c: char): nat
  {
    multiset(hand)[c]
  }

  /** Some card of the hand occurs exactly `n` times. */
  ghost predicate HasCount(hand: seq<char>, n: nat)
  {
    exists k :: 0 <= k < |hand| && Count(hand, hand[k]) == n
  }

  /** Two different cards of the hand occur exactly twice each. */
  ghost predicate HasTwoPairs(hand: seq<char>)
  {
    exists k, l :: 0 <= k < |hand| && 0 <= l < |hand| && hand[k] != hand[l]
      && Count(hand, hand[k]) == 2 && Count(hand, hand[l]) == 2
  }

  /** The classification of a hand by how often its cards repeat, with no wildcard. */
  ghost function StandardType(hand: seq<char>): HandType
  {
    if HasCount(hand, 5) then FiveOfAKind
    else if HasCount(hand, 4) then FourOfAKind
    else if HasCount(hand, 3) && HasCount(hand, 2) then FullHouse
    else if HasCount(hand, 3) then ThreeOfAKind
    else if HasTwoPairs(hand) then TwoPair
    else if HasCount(hand, 2) then OnePair
    else HighCard
  }

  /** Reordering the cards does not change the classification. */
  lemma StandardTypeReordered(a: seq<char>, b: seq<char>)
    requires multiset(a) == multiset(b)
    ensures StandardType(a) == StandardType(b)
  {
    forall n: nat ensures HasCount(a, n) <==> HasCount(b, n) {
      HasCountReordered(a, b, n);
      HasCountReordered(b, a, n);
    }
    HasTwoPairsReordered(a, b);
    HasTwoPairsReordered(b, a);
  }

  lemma HasCountReordered(a: seq<char>, b: seq<char>, n: nat)
    requires multiset(a) == multiset(b)
    ensures HasCount(a, n) ==> HasCount(b, n)
  {
    if HasCount(a, n) {
        var k :| 0 <= k < |a| && Count(a, a[k]) == n;
      assert a[k] in multiset(b);
      var k' :| 0 <= k' < |b| && b[k'] == a[k];
      assert Count(b, b[k']) == n;
    }
  }

  lemma HasTwoPairsReordered(a: seq<char>, b: seq<char>)
    requires multiset(a) == multiset(b)
    ensures HasTwoPairs(a) ==> HasTwoPairs(b)
  {
    if HasTwoPairs(a) {
        var k, l :| 0 <= k < |a| && 0 <= l < |a| && a[k] != a[l] && Count(a, a[k]) == 2 && Count(a, a[l]) == 2;
      assert a[k] in multiset(b) && a[l] in multiset(b);
      var k' :| 0 <= k' < |b| && b[k'] == a[k];
      var l' :| 0 <= l' < |b| && b[l'] == a[l];
      assert Count(b, b[k']) == 2 && Count(b, b[l']) == 2;
    }
  }

  /** The occurrences of `c` among five cards, one by one. */
  function Tally(t: seq<char>, c: char): nat
    requires |t| == 5
  {
    (if t[0] == c then 1 else 0) + (if t[1] == c then 1 else 0) + (if t[2] == c then 1 else 0)
    + (if t[3] == c then 1 else 0) + (if t[4] == c then 1 else 0)
  }

  /** Counting in five cards. */
  lemma CountOfFive(t: seq<char>, c: char)
    requires |t| == 5
    ensures Count(t, c) == Tally(t, c)
  {
    assert t == [t[0]] + [t[1]] + [t[2]] + [t[3]] + [t[4]];
  }

  lemma HasCountOfFive(t: seq<char>, n: nat)
    requires |t| == 5
    ensures HasCount(t, n) <==> (Count(t, t[0]) == n || Count(t, t[1]) == n || Count(t, t[2]) == n
                                 || Count(t, t[3]) == n || Count(t, t[4]) == n)
  {
    if HasCount(t, n) {
      var k :| 0 <= k < |t| && Count(t, t[k]) == n;
      assert k == 0 || k == 1 || k == 2 || k == 3 || k == 4;
    }
  }

  lemma HasTwoPairsOfFive(t: seq<char>)
    requires |t| == 5
    ensures HasTwoPairs(t) <==>
         (TwoAt(t, 0, 1)
         || TwoAt(t, 0, 2)
         || TwoAt(t, 0, 3)
         || TwoAt(t, 0, 4)
         || TwoAt(t, 1, 2)
         || TwoAt(t, 1, 3)
         || TwoAt(t, 1, 4)
         || TwoAt(t, 2, 3)
         || TwoAt(t, 2, 4)
         || TwoAt(t, 3, 4))
  {
    if HasTwoPairs(t) {
      var k, l :| 0 <= k < 5 && 0 <= l < 5 && t[k] != t[l] && Count(t, t[k]) == 2 && Count(t, t[l]) == 2;
      assert TwoAt(t, k, l) && TwoAt(t, l, k);
      assert k == 0 || k == 1 || k == 2 || k == 3 || k == 4;
      assert l == 0 || l == 1 || l == 2 || l == 3 || l == 4;
    }
  }

  /** Cards `k` and `l` differ and occur twice each. */
  predicate TwoAt(t: seq<char>, k: nat, l: nat)
    requires k < |t| && l < |t|
  {
    t[k] != t[l] && Count(t, t[k]) == 2 && Count(t, t[l]) == 2
  }

  /** The window tests of `hand_type` on five cards without jokers, written out. */
  lemma NoJokerTests(t: seq<char>)
    requires |t| == 5
    ensures MakesFive(0, t) <==> t[0] == t[4] && t[1] == t[4] && t[2] == t[4] && t[3] == t[4]
    ensures MakesFour(0, t) <==> (t[0] == t[3] && t[1] == t[3] && t[2] == t[3]) || (t[1] == t[4] && t[2] == t[4] && t[3] == t[4])
    ensures MakesThree(0, t) <==> (t[0] == t[2] && t[1] == t[2]) || (t[1] == t[3] && t[2] == t[3]) || (t[2] == t[4] && t[3] == t[4])
    ensures EqualNeighbours(t) == (if t[0] == t[1] then 1 else 0) + (if t[1] == t[2] then 1 else 0)
      + (if t[2] == t[3] then 1 else 0) + (if t[3] == t[4] then 1 else 0)
  {
    assert t[0..] == t;
    if MakesFour(0, t) {
      var i :| i < 5 && UniformAt(t, i, 4);
      assert i == 0 || i == 1;
    }
    if (t[0] == t[3] && t[1] == t[3] && t[2] == t[3]) {
      assert UniformAt(t, 0, 4);
    }
    if (t[1] == t[4] && t[2] == t[4] && t[3] == t[4]) {
      assert UniformAt(t, 1, 4);
    }
    if MakesThree(0, t) {
      var i :| i < 5 && UniformAt(t, i, 3);
      assert i == 0 || i == 1 || i == 2;
    }
    if t[0] == t[2] && t[1] == t[2] {
      assert UniformAt(t, 0, 3);
    }
    if t[1] == t[3] && t[2] == t[3] {
      assert UniformAt(t, 1, 3);
    }
    if t[2] == t[4] && t[3] == t[4] {
      assert UniformAt(t, 2, 3);
    }
    assert t[1..][1..] == t[2..];
    assert t[2..][1..] == t[3..];
    assert t[3..][1..] == t[4..];
    assert EqualNeighbours(t[4..]) == 0;
    assert EqualNeighbours(t[3..]) == if t[3] == t[4] then 1 else 0;
  }

  /** In five sorted cards, two cards are equal exactly when every neighbour between them is. */
  lemma SortedFive(t: seq<char>)
    requires |t| == 5 && AllCards(t) && SortedBy(t, Rank)
    ensures t[0] == t[2] <==> t[0] == t[1] && t[1] == t[2]
    ensures t[1] == t[3] <==> t[1] == t[2] && t[2] == t[3]
    ensures t[2] == t[4] <==> t[2] == t[3] && t[3] == t[4]
    ensures t[0] == t[3] <==> t[0] == t[1] && t[1] == t[2] && t[2] == t[3]
    ensures t[1] == t[4] <==> t[1] == t[2] && t[2] == t[3] && t[3] == t[4]
    ensures t[0] == t[4] <==> t[0] == t[1] && t[1] == t[2] && t[2] == t[3] && t[3] == t[4]
  {
    forall i: nat, k: nat, j: nat | i < k < j < 5 && t[i] == t[j] ensures t[k] == t[i] {
      Contiguous(t, i, k, j);
    }
  }

  /** Without jokers `hand_type` is the usual classification of the sorted cards. */
  lemma ClassifyWithoutJokers(t: seq<char>)
    requires |t| == 5 && AllCards(t) && SortedBy(t, Rank)
    ensures Classify(0, t) == StandardType(t)
  {
    NoJokerTests(t);
    SortedFive(t);
    CountOfFive(t, t[0]);
    CountOfFive(t, t[1]);
    CountOfFive(t, t[2]);
    CountOfFive(t, t[3]);
    CountOfFive(t, t[4]);
    HasCountOfFive(t, 5);
    HasCountOfFive(t, 4);
    HasCountOfFive(t, 3);
    HasCountOfFive(t, 2);
    HasTwoPairsOfFive(t);
  }

  /** Without jokers `hand_type` is the usual classification of the hand. */
  lemma HandTypeWithoutJokers(hand: seq<char>)
    requires |hand| == 5 && AllCards(hand) && 'J' !in hand
    ensures HandTypeOf(hand) == StandardType(hand)
  {
    var t := SortedCards(hand);
    SortedCardsFacts(hand);
    JokersCounted(hand);
    ClassifyWithoutJokers(t);
    StandardTypeReordered(t, hand);
  }

  // ---------------------------------------------------------------------------------------------
  // Jokers as wildcards

  /** Every joker of the hand replaced by `b`. */
  function ReplaceJokers(hand: seq<char>, b: char): (r: seq<char>)
    ensures |r| == |hand|
    ensures forall k :: 0 <= k < |r| ==> r[k] == if hand[k] == 'J' then b else hand[k]
  {
    if hand == [] then [] else [if hand[0] == 'J' then b else hand[0]] + ReplaceJokers(hand[1..], b)
  }

  /** `b` is a card other than the joker that occurs at least as often as any other such card. */
  ghost predicate MostFrequent(hand: seq<char>, b: char)
  {
    IsCard(b) && b != 'J' && forall c :: c != 'J' ==> Count(hand, c) <= Count(hand, b)
  }

  /** Replacing the jokers moves their count onto `b`. */
  lemma {:induction false} ReplaceJokersCount(hand: seq<char>, b: char, c: char)
    requires b != 'J'
    ensures Count(ReplaceJokers(hand, b), c)
         == if c == 'J' then 0 else if c == b then Count(hand, b) + Count(hand, 'J') else Count(hand, c)
  {
    if hand != [] {
      var rest := hand[1..];
      ReplaceJokersCount(rest, b, c);
      assert hand == [hand[0]] + rest;
      var r := ReplaceJokers(hand, b);
      assert r == [r[0]] + ReplaceJokers(rest, b);
      CountCons(hand[0], rest, c);
      CountCons(hand[0], rest, b);
      CountCons(hand[0], rest, 'J');
      CountCons(r[0], ReplaceJokers(rest, b), c);
    }
  }

  lemma CountCons(x: char, s: seq<char>, c: char)
    ensures Count([x] + s, c) == (if x == c then 1 else 0) + Count(s, c)
  {
    assert multiset([x] + s) == multiset{x} + multiset(s);
  }

  /** Replacing jokers commutes with reordering the cards. */
  lemma ReplaceJokersReordered(a: seq<char>, t: seq<char>, b: char)
    requires multiset(a) == multiset(t) && b != 'J'
    ensures multiset(ReplaceJokers(a, b)) == multiset(ReplaceJokers(t, b))
  {
    forall c ensures multiset(ReplaceJokers(a, b))[c] == multiset(ReplaceJokers(t, b))[c] {
      ReplaceJokersCount(a, b, c);
      ReplaceJokersCount(t, b, c);
    }
  }

  lemma ShiftedWindow(t: seq<char>, nj: nat, i: nat, w: nat)
    requires nj <= |t|
    ensures UniformAt(t[nj..], i, w) <==> UniformAt(t, nj + i, w)
  {
    if UniformAt(t, nj + i, w) {
      forall k | i <= k < i + w ensures t[nj..][k] == t[nj..][i + w - 1] {
        assert t[nj..][k] == t[nj + k];
      }
    }
    if UniformAt(t[nj..], i, w) {
      forall k | nj + i <= k < nj + i + w ensures t[k] == t[nj + i + w - 1] {
        assert t[k] == t[nj..][k - nj];
      }
    }
  }

  /** The window tests of `hand_type` for `numJ` jokers in front of five cards, written out. */
  lemma WindowTests(t: seq<char>, nj: nat)
    requires |t| == 5 && nj <= 3
    ensures SomeUniformWindow(t[nj..], 4 - nj) <==> UniformAt(t, nj, 4 - nj) || UniformAt(t, nj + 1, 4 - nj)
    ensures nj <= 1 ==> (SomeUniformWindow(t[nj..], 3 - nj) <==>
      UniformAt(t, nj, 3 - nj) || UniformAt(t, nj + 1, 3 - nj) || UniformAt(t, nj + 2, 3 - nj))
  {
    var u := t[nj..];
    if SomeUniformWindow(u, 4 - nj) {
      var i: nat :| i < |u| && UniformAt(u, i, 4 - nj);
      ShiftedWindow(t, nj, i, 4 - nj);
      assert i == 0 || i == 1;
    }
    ShiftedWindow(t, nj, 0, 4 - nj);
    ShiftedWindow(t, nj, 1, 4 - nj);
    if nj <= 1 {
      if SomeUniformWindow(u, 3 - nj) {
        var i: nat :| i < |u| && UniformAt(u, i, 3 - nj);
        ShiftedWindow(t, nj, i, 3 - nj);
        assert i == 0 || i == 1 || i == 2;
      }
      ShiftedWindow(t, nj, 0, 3 - nj);
      ShiftedWindow(t, nj, 1, 3 - nj);
      ShiftedWindow(t, nj, 2, 3 - nj);
    }
  }

  /** The sorted cards of a hand, with `nj` jokers in front and `b` a most frequent other card. */
  ghost predicate JokerSetting(t: seq<char>, nj: nat, b: char)
  {
    |t| == 5 && AllCards(t) && SortedBy(t, Rank) && nj == LeadingJokers(t) && MostFrequent(t, b)
  }

  /** On the sorted cards: `hand_type` with `nj` jokers in front is the usual classification once
      the jokers become the most frequent other card. */
  lemma ClassifyWithJokers(t: seq<char>, nj: nat, b: char)
    requires JokerSetting(t, nj, b)
    ensures Classify(nj, t) == StandardType(ReplaceJokers(t, b))
  {
    if nj == 0 {
      assert ReplaceJokers(t, b) == t;
      ClassifyWithoutJokers(t);
    } else if nj == 1 {
      OneJoker(t, b);
    } else if nj == 2 {
      TwoJokers(t, b);
    } else {
      ThreeOrMoreJokers(t, nj, b);
    }
  }

  /** The facts the joker cases share: where the jokers are, what replaced them, and the counts. */
  lemma JokerFacts(t: seq<char>, nj: nat, b: char) returns (m: nat)
    requires JokerSetting(t, nj, b)
    ensures forall k :: 0 <= k < 5 ==> (t[k] == 'J' <==> k < nj)
    ensures nj < 5 ==> nj <= m < 5 && t[m] == b
    ensures forall k :: nj <= k < 5 ==> Tally(t, t[k]) <= Tally(t, b)
    ensures var r := ReplaceJokers(t, b);
      && (forall k :: 0 <= k < 5 ==> r[k] == if k < nj then b else t[k])
      && StandardType(r) == TallyType(r)
  {
    forall k | nj <= k < 5 ensures t[k] != 'J' {
      assert Rank(t[nj]) <= Rank(t[k]);
    }
    forall k | nj <= k < 5 ensures Tally(t, t[k]) <= Tally(t, b) {
      CountOfFive(t, t[k]);
      CountOfFive(t, b);
    }
    m := 0;
    if nj < 5 {
      assert Tally(t, t[4]) >= 1;
      var k :| nj <= k < 5 && t[k] == b;
      m := k;
    }
    StandardIsTallyType(ReplaceJokers(t, b));
  }

  /** The usual classification of five cards read off their tallies. */
  function TallyType(r: seq<char>): HandType
    requires |r| == 5
  {
    var t0, t1, t2, t3, t4 := Tally(r, r[0]), Tally(r, r[1]), Tally(r, r[2]), Tally(r, r[3]), Tally(r, r[4]);
    if t0 == 5 then FiveOfAKind
    else if t0 == 4 || t1 == 4 then FourOfAKind
    else if (t0 == 3 || t1 == 3 || t2 == 3) && (t0 == 2 || t1 == 2 || t2 == 2 || t3 == 2 || t4 == 2) then FullHouse
    else if t0 == 3 || t1 == 3 || t2 == 3 then ThreeOfAKind
    else if (if t0 == 2 then 1 else 0) + (if t1 == 2 then 1 else 0) + (if t2 == 2 then 1 else 0)
            + (if t3 == 2 then 1 else 0) + (if t4 == 2 then 1 else 0) == 4 then TwoPair
    else if t0 == 2 || t1 == 2 || t2 == 2 || t3 == 2 then OnePair
    else HighCard
  }

  lemma StandardIsTallyType(r: seq<char>)
    requires |r| == 5
    ensures StandardType(r) == TallyType(r)
  {
    CountOfFive(r, r[0]);
    CountOfFive(r, r[1]);
    CountOfFive(r, r[2]);
    CountOfFive(r, r[3]);
    CountOfFive(r, r[4]);
    HasCountOfFive(r, 5);
    HasCountOfFive(r, 4);
    HasCountOfFive(r, 3);
    HasCountOfFive(r, 2);
    HasTwoPairsOfFive(r);
  }

  /** One joker: it joins the largest group of the other four cards. */
  lemma OneJoker(t: seq<char>, b: char)
    requires JokerSetting(t, 1, b)
    ensures Classify(1, t) == StandardType(ReplaceJokers(t, b))
  {
    var r := ReplaceJokers(t, b);
    var m := JokerFacts(t, 1, b);
    SortedFive(t);
    ClassifyOne(t);
    assert r == [b, t[1], t[2], t[3], t[4]];
    OneJokerTallies(t, b, r);
  }

  /** The chain of `hand_type` with one joker in front, written out. */
  lemma ClassifyOne(t: seq<char>)
    requires |t| == 5 && t[0] == 'J' && t[1] != 'J'
    ensures Classify(1, t) ==
      if t[1] == t[4] && t[2] == t[4] && t[3] == t[4] then FiveOfAKind
      else if (t[1] == t[3] && t[2] == t[3]) || (t[2] == t[4] && t[3] == t[4]) then FourOfAKind
      else if t[1] == t[2] && t[3] == t[4] then FullHouse
      else if t[1] == t[2] || t[2] == t[3] || t[3] == t[4] then ThreeOfAKind
      else OnePair
  {
    NoJokerTests(t);
  }

  /** The one-joker case on explicit cards: `t[0]` is the joker and `b` a most frequent other card. */
  lemma OneJokerTallies(t: seq<char>, b: char, r: seq<char>)
    requires |t| == 5 && t[0] == 'J' && t[1] != 'J' && t[2] != 'J' && t[3] != 'J' && t[4] != 'J'
    requires t[1] == t[3] <==> t[1] == t[2] && t[2] == t[3]
    requires t[2] == t[4] <==> t[2] == t[3] && t[3] == t[4]
    requires t[1] == t[4] <==> t[1] == t[2] && t[2] == t[3] && t[3] == t[4]
    requires b == t[1] || b == t[2] || b == t[3] || b == t[4]
    requires Tally(t, t[1]) <= Tally(t, b) && Tally(t, t[2]) <= Tally(t, b)
    requires Tally(t, t[3]) <= Tally(t, b) && Tally(t, t[4]) <= Tally(t, b)
    requires r == [b, t[1], t[2], t[3], t[4]]
    ensures TallyType(r) ==
      if t[1] == t[4] && t[2] == t[4] && t[3] == t[4] then FiveOfAKind
      else if (t[1] == t[3] && t[2] == t[3]) || (t[2] == t[4] && t[3] == t[4]) then FourOfAKind
      else if t[1] == t[2] && t[3] == t[4] then FullHouse
      else if t[1] == t[2] || t[2] == t[3] || t[3] == t[4] then ThreeOfAKind
      else OnePair
  {
  }

  /** Two jokers: never a full house, at least three of a kind. */
  lemma TwoJokers(t: seq<char>, b: char)
    requires JokerSetting(t, 2, b)
    ensures Classify(2, t) == StandardType(ReplaceJokers(t, b))
  {
    var r := ReplaceJokers(t, b);
    var m := JokerFacts(t, 2, b);
    SortedFive(t);
    ClassifyTwo(t);
    assert r == [b, b, t[2], t[3], t[4]];
    TwoJokerTallies(t, b, r);
  }

  /** The chain of `hand_type` with two jokers in front, written out. */
  lemma ClassifyTwo(t: seq<char>)
    requires |t| == 5
    ensures Classify(2, t) ==
      if t[2] == t[4] && t[3] == t[4] then FiveOfAKind
      else if t[2] == t[3] || t[3] == t[4] then FourOfAKind
      else ThreeOfAKind
  {
  }

  /** The two-joker case on explicit cards. */
  lemma TwoJokerTallies(t: seq<char>, b: char, r: seq<char>)
    requires |t| == 5 && t[0] == 'J' && t[1] == 'J' && t[2] != 'J' && t[3] != 'J' && t[4] != 'J'
    requires t[2] == t[4] <==> t[2] == t[3] && t[3] == t[4]
    requires b == t[2] || b == t[3] || b == t[4]
    requires Tally(t, t[2]) <= Tally(t, b) && Tally(t, t[3]) <= Tally(t, b) && Tally(t, t[4]) <= Tally(t, b)
    requires r == [b, b, t[2], t[3], t[4]]
    ensures TallyType(r) ==
      if t[2] == t[4] && t[3] == t[4] then FiveOfAKind
      else if t[2] == t[3] || t[3] == t[4] then FourOfAKind
      else ThreeOfAKind
  {
  }

  /** Three or more jokers: four of a kind at least. */
  lemma ThreeOrMoreJokers(t: seq<char>, nj: nat, b: char)
    requires JokerSetting(t, nj, b) && nj >= 3
    ensures Classify(nj, t) == StandardType(ReplaceJokers(t, b))
  {
    var r := ReplaceJokers(t, b);
    var m := JokerFacts(t, nj, b);
  }

  /** A non-joker card that occurs most often, scanning the first `n` cards (`'A'` when they are
      all jokers). */
  function BestAmong(hand: seq<char>, n: nat): (best: char)
    requires n <= |hand| && AllCards(hand)
    ensures IsCard(best) && best != 'J'
    ensures forall k :: 0 <= k < n && hand[k] != 'J' ==> Count(hand, hand[k]) <= Count(hand, best)
  {
    if n == 0 then 'A'
    else
      var prev := BestAmong(hand, n - 1);
      if hand[n - 1] != 'J' && Count(hand, hand[n - 1]) > Count(hand, prev) then hand[n - 1] else prev
  }

  /** Every hand has a most frequent non-joker card. */
  lemma MostFrequentExists(hand: seq<char>)
    requires AllCards(hand)
    ensures MostFrequent(hand, BestAmong(hand, |hand|))
  {
    var best := BestAmong(hand, |hand|);
    forall c | c != 'J' ensures Count(hand, c) <= Count(hand, best) {
      if c in hand {
        var k :| 0 <= k < |hand| && hand[k] == c;
      }
    }
  }

  /** Jokers are wildcards: the if-chain on the sorted cards is the usual classification of the
      hand in which every joker has become a most frequent other card. */
  lemma JokersAsWildcards(hand: seq<char>, b: char)
    requires |hand| == 5 && AllCards(hand) && MostFrequent(hand, b)
    ensures Classify(LeadingJokers(SortedCards(hand)), SortedCards(hand)) == StandardType(ReplaceJokers(hand, b))
  {
    var t := SortedCards(hand);
    SortedCardsFacts(hand);
    forall c | c != 'J' ensures Count(t, c) <= Count(t, b) {
      assert Count(hand, c) <= Count(hand, b);
    }
    ClassifyWithJokers(t, LeadingJokers(t), b);
    ReplaceJokersReordered(hand, t, b);
    StandardTypeReordered(ReplaceJokers(hand, b), ReplaceJokers(t, b));
  }

  // ---------------------------------------------------------------------------------------------
  // Draws

  /** A hand and its bid. */
  datatype Draw = Draw(cards: seq<char>, bid: nat)

  predicate ValidDraw(d: Draw)
  {
    |d.cards| == 5 && AllCards(d.cards)
  }

  /** `zip(...).map(Card::cmp).find(|o| o != Equal)`: the comparison at the first position where
      the cards differ. */
  function FirstDifference(x: seq<char>, y: seq<char>): Option<Ordering>
    requires AllCards(x) && AllCards(y)
  {
    if x == [] || y == [] then None
    else if CardCmp(x[0], y[0]) != Equal then Some(CardCmp(x[0], y[0]))
    else FirstDifference(x[1..], y[1..])
  }

  /** Hands of equal length that differ somewhere always have a first difference, so the
      `expect` of `Draw::cmp` never fires. */
  lemma {:induction false} FirstDifferenceFound(x: seq<char>, y: seq<char>)
    requires AllCards(x) && AllCards(y) && |x| == |y| && x != y
    ensures FirstDifference(x, y).Some? && FirstDifference(x, y).value != Equal
  {
    CardCmpTotalOrder(x[0], y[0], y[0]);
    if x[0] == y[0] {
      assert x == [x[0]] + x[1..] && y == [y[0]] + y[1..];
      FirstDifferenceFound(x[1..], y[1..]);
    }
  }

  /** `Draw::cmp`: equal draws are Equal; otherwise the hand types decide, then the first card that
      differs, which is the order of one integer key.  Two different draws with the same cards are
      the `unreachable!` case, excluded. */
  function DrawCmp(a: Draw, b: Draw): (o: Ordering)
    requires ValidDraw(a) && ValidDraw(b)
    requires a == b || a.cards != b.cards
    ensures o == Compare(DrawKey(a), DrawKey(b))
  {
    CardsKeyOrder(a.cards, b.cards);
    var ha, hb := HandTypeOf(a.cards).Strength(), HandTypeOf(b.cards).Strength();
    if b == a then Equal
    else
      var byType := Compare(ha, hb);
      if byType != Equal then
        if ha < hb then
          LeadingDigit(ha, hb, CardsKey(a.cards), CardsKey(b.cards), Pow15(5));
          byType
        else
          LeadingDigit(hb, ha, CardsKey(b.cards), CardsKey(a.cards), Pow15(5));
          byType
      else
        FirstDifferenceFound(a.cards, b.cards);
        FirstDifference(a.cards, b.cards).value
  }

  function Pow15(n: nat): (p: nat)
    ensures p >= 1
  {
    if n == 0 then 1 else 15 * Pow15(n - 1)
  }

  /** The cards read as the digits of a base-15 number, most significant first. */
  function CardsKey(x: seq<char>): (k: nat)
    requires AllCards(x)
    ensures k < Pow15(|x|)
  {
    if x == [] then 0
    else
      RankInjective(x[0], x[0]);
      var rest := CardsKey(x[1..]);
      DigitBound(Rank(x[0]), rest, Pow15(|x| - 1));
      Rank(x[0]) * Pow15(|x| - 1) + rest
  }

  lemma DigitBound(d: nat, rest: nat, p: nat)
    requires d < 14 && rest < p
    ensures d * p + rest < 15 * p
  {
  }

  /** Comparing the base-15 numbers is comparing the cards left to right. */
  lemma {:induction false} CardsKeyOrder(x: seq<char>, y: seq<char>)
    requires AllCards(x) && AllCards(y) && |x| == |y|
    ensures FirstDifference(x, y).None? ==> x == y
    ensures Compare(CardsKey(x), CardsKey(y))
         == if FirstDifference(x, y).Some? then FirstDifference(x, y).value else Equal
  {
    if x != [] {
      var p := Pow15(|x| - 1);
      RankInjective(x[0], y[0]);
      CardsKeyOrder(x[1..], y[1..]);
      assert x == [x[0]] + x[1..] && y == [y[0]] + y[1..];
      assert CardsKey(x) == Rank(x[0]) * p + CardsKey(x[1..]);
      assert CardsKey(y) == Rank(y[0]) * p + CardsKey(y[1..]);
      if Rank(x[0]) < Rank(y[0]) {
        LeadingDigit(Rank(x[0]), Rank(y[0]), CardsKey(x[1..]), CardsKey(y[1..]), p);
      } else if Rank(y[0]) < Rank(x[0]) {
        LeadingDigit(Rank(y[0]), Rank(x[0]), CardsKey(y[1..]), CardsKey(x[1..]), p);
      }
    }
  }

  /** A smaller leading digit makes a smaller number, whatever follows. */
  lemma LeadingDigit(d: nat, e: nat, r: nat, s: nat, p: nat)
    requires d < e && r < p && s < p
    ensures d * p + r < e * p + s
  {
    assert (d + 1) * p <= e * p;
  }

  /** The order `Draw::cmp` sorts by, as a number: the hand type, then the cards. */
  function DrawKey(d: Draw): int
  {
    if ValidDraw(d) then HandTypeOf(d.cards).Strength() * Pow15(5) + CardsKey(d.cards) else 0
  }

  /** `Draw::cmp` is a total order on draws with different cards: Equal only on the same draw,
      reversed by swapping, and transitive. */
  lemma DrawCmpTotalOrder(a: Draw, b: Draw, c: Draw)
    requires ValidDraw(a) && ValidDraw(b) && ValidDraw(c)
    requires a == b || a.cards != b.cards
    requires b == c || b.cards != c.cards
    requires a == c || a.cards != c.cards
    ensures DrawCmp(a, b) == Equal <==> a == b
    ensures DrawCmp(b, a) == DrawCmp(a, b).Reverse()
    ensures DrawCmp(a, b) == Less && DrawCmp(b, c) == Less ==> DrawCmp(a, c) == Less
  {
    if a != b {
      FirstDifferenceFound(a.cards, b.cards);
    }
  }

  // ---------------------------------------------------------------------------------------------
  // The two parts

  predicate ValidDraws(ds: seq<Draw>)
  {
    forall i :: 0 <= i < |ds| ==> ValidDraw(ds[i])
  }

  /** No two draws hold the same cards (`Draw::cmp` panics otherwise). */
  predicate DistinctHands(ds: seq<Draw>)
  {
    forall i, j :: 0 <= i < j < |ds| ==> ds[i].cards != ds[j].cards
  }

  /** The total winnings of draws in ascending order: the i-th weakest earns `i` times its bid. */
  function Winnings(sorted: seq<Draw>): nat
  {
    if sorted == [] then 0
    else Winnings(sorted[..|sorted| - 1]) + Gain(|sorted|, sorted[|sorted| - 1].bid)
  }

  function Gain(rank: nat, bid: nat): nat
  {
    rank * bid
  }

  /** Part 1 plays J as a plain jack: every 'J' becomes 'F', whose rank (10) lies between those of
      T and Q. */
  function RewriteJacks(d: Draw): (r: Draw)
    ensures r.bid == d.bid && |r.cards| == |d.cards|
    ensures forall k :: 0 <= k < |d.cards| ==> r.cards[k] == if d.cards[k] == 'J' then 'F' else d.cards[k]
  {
    Draw(seq(|d.cards|, k requires 0 <= k < |d.cards| => if d.cards[k] == 'J' then 'F' else d.cards[k]), d.bid)
  }

  function RewriteAll(ds: seq<Draw>): seq<Draw>
  {
    seq(|ds|, i requires 0 <= i < |ds| => RewriteJacks(ds[i]))
  }

  /** After the rewrite no card is a joker, so the hand is classified the usual way and the stand-in
      card 'F' ranks exactly where a jack does. */
  lemma RewriteJacksFacts(d: Draw)
    requires ValidDraw(d)
    ensures ValidDraw(RewriteJacks(d)) && 'J' !in RewriteJacks(d).cards
    ensures HandTypeOf(RewriteJacks(d).cards) == StandardType(RewriteJacks(d).cards)
  {
    var r := RewriteJacks(d);
    assert forall k :: 0 <= k < 5 ==> IsCard(r.cards[k]) && r.cards[k] != 'J';
    HandTypeWithoutJokers(r.cards);
  }

  /** Hands without an 'F' stay pairwise different when their jacks are rewritten. */
  lemma RewriteKeepsDistinct(ds: seq<Draw>)
    requires DistinctHands(ds)
    requires forall i :: 0 <= i < |ds| ==> 'F' !in ds[i].cards
    ensures DistinctHands(RewriteAll(ds))
  {
    forall i, j | 0 <= i < j < |ds| ensures RewriteJacks(ds[i]).cards != RewriteJacks(ds[j]).cards {
      var x, y := ds[i].cards, ds[j].cards;
      if |x| == |y| {
        var k :| 0 <= k < |x| && x[k] != y[k];
        assert x[k] in x && y[k] in y;
        assert RewriteJacks(ds[i]).cards[k] != RewriteJacks(ds[j]).cards[k];
      }
    }
  }

  /** `sort` with `Draw::cmp` arranges the draws strictly ascending; there is exactly one such
      arrangement, and it is the one sorted by `DrawKey`. */
  lemma SortOrderIsUnique(ds: seq<Draw>, s: seq<Draw>)
    requires ValidDraws(s) && DistinctHands(s) && multiset(s) == multiset(ds)
    requires forall i, j :: 0 <= i < j < |s| ==> DrawCmp(s[i], s[j]) == Less
    ensures s == SortByKey(ds, DrawKey)
  {
    KeysAscending(s);
    KeysDistinct(s);
    SortedUnique(s, SortByKey(ds, DrawKey), DrawKey);
  }

  lemma KeysAscending(s: seq<Draw>)
    requires ValidDraws(s) && DistinctHands(s)
    requires forall i, j :: 0 <= i < j < |s| ==> DrawCmp(s[i], s[j]) == Less
    ensures SortedBy(s, DrawKey)
  {
    var key := DrawKey;
    forall i, j | 0 <= i < j < |s| ensures key(s[i]) <= key(s[j]) {
      assert DrawCmp(s[i], s[j]) == Less;
    }
  }

  lemma KeysDistinct(s: seq<Draw>)
    requires ValidDraws(s) && DistinctHands(s)
    ensures KeyInjective(s, DrawKey)
  {
    forall i, j | 0 <= i < |s| && 0 <= j < |s| && i != j
      ensures DrawKey(s[i]) != DrawKey(s[j])
    {
      if i < j {
        KeyDiffers(s[i], s[j]);
      } else {
        KeyDiffers(s[j], s[i]);
      }
    }
  }

  /** Draws with different cards have different keys. */
  lemma KeyDiffers(a: Draw, b: Draw)
    requires ValidDraw(a) && ValidDraw(b) && a.cards != b.cards
    ensures DrawKey(a) != DrawKey(b)
  {
    FirstDifferenceFound(a.cards, b.cards);
    assert DrawCmp(a, b) != Equal;
  }

  /** Sorts the draws in place and adds up rank times bid. */
  method Score(a: array<Draw>) returns (total: nat)
    modifies a
    ensures a[..] == SortByKey(old(a[..]), DrawKey)
    ensures total == Winnings(a[..])
  {
    SortInPlace(a, DrawKey);
    total := Total(a[..]);
  }

  /** The `enumerate().map(...).sum()` over the sorted draws. */
  method Total(sorted: seq<Draw>) returns (total: nat)
    ensures total == Winnings(sorted)
  {
    total := 0;
    for i := 0 to |sorted|
      invariant total == Winnings(sorted[..i])
    {
      assert sorted[..i + 1][..i] == sorted[..i];
      total := total + Gain(i + 1, sorted[i].bid);
    }
    assert sorted[..|sorted|] == sorted;
  }

  /** `part1`: rewrite every jack to 'F', sort, and score. */
  method Part1(draws: seq<Draw>) returns (total: nat)
    ensures total == Winnings(SortByKey(RewriteAll(draws), DrawKey))
  {
    var a := new Draw[|draws|](i requires 0 <= i < |draws| => draws[i]);
    for i := 0 to a.Length
      invariant forall k :: 0 <= k < i ==> a[k] == RewriteJacks(draws[k])
      invariant forall k :: i <= k < a.Length ==> a[k] == draws[k]
    {
      a[i] := RewriteJacks(a[i]);
    }
    assert a[..] == RewriteAll(draws);
    total := Score(a);
  }

  /** `part2`: sort with jokers wild and score. */
  method Part2(draws: seq<Draw>) returns (total: nat)
    ensures total == Winnings(SortByKey(draws, DrawKey))
  {
    var a := new Draw[|draws|](i requires 0 <= i < |draws| => draws[i]);
    assert a[..] == draws;
    total := Score(a);
  }
}
