/** Day 2, cube conundrum (day02/src/lib.rs).

    A game is a list of draws; a draw says how many red, green and blue cubes were shown.  Parsing
    is not part of the model except for the fold that turns the colour mentions of one draw into a
    `Draw`. */
module CubeGames {

  datatype Color = Red | Green | Blue

  datatype Draw = Draw(r: nat, g: nat, b: nat)
  {
    function Count(c: Color): nat
    {
      match c
      case Red => r
      case Green => g
      case Blue => b
    }
  }

  datatype Game = Game(id: nat, draws: seq<Draw>)

  /** Mention `i` is the last one of colour `c`. */
  predicate LastMention(mentions: seq<(nat, Color)>, c: Color, i: int)
  {
    0 <= i < |mentions| && mentions[i].1 == c && forall j :: i < j < |mentions| ==> mentions[j].1 != c
  }

  /** Colour `c` is mentioned somewhere in `mentions`. */
  ghost predicate Mentioned(mentions: seq<(nat, Color)>, c: Color)
  {
    exists i :: 0 <= i < |mentions| && mentions[i].1 == c
  }

  /** The count of colour `c` in `d` is the one of its last mention. */
  ghost predicate CountOfLast(mentions: seq<(nat, Color)>, c: Color, d: Draw)
  {
    exists i :: LastMention(mentions, c, i) && d.Count(c) == mentions[i].0
  }

  /** Every colour mentioned in `mentions` has its count in `d` from its last mention. */
  ghost predicate LastMentionsKept(mentions: seq<(nat, Color)>, d: Draw)
  {
    forall c :: Mentioned(mentions, c) ==> CountOfLast(mentions, c, d)
  }

  /** The fold inside `draw`: every mention sets its colour; colours never mentioned stay 0. */
  function FoldMentions(mentions: seq<(nat, Color)>): (d: Draw)
    ensures forall c :: (forall i :: 0 <= i < |mentions| ==> mentions[i].1 != c) ==> d.Count(c) == 0
    ensures LastMentionsKept(mentions, d)
  {
    if mentions == [] then Draw(0, 0, 0)
    else
      var n := |mentions| - 1;
      var acc := FoldMentions(mentions[..n]);
      var num, color := mentions[n].0, mentions[n].1;
      var d := match color
        case Red => acc.(r := num)
        case Green => acc.(g := num)
        case Blue => acc.(b := num);
      assert forall c :: c != color ==> d.Count(c) == acc.Count(c);
      assert forall i :: 0 <= i < n ==> mentions[..n][i] == mentions[i];
      MentionStep(mentions, acc, d);
      d
  }

  /** One step of the fold: the last mention sets its colour and the others keep theirs. */
  lemma MentionStep(mentions: seq<(nat, Color)>, acc: Draw, d: Draw)
    requires |mentions| > 0
    requires LastMentionsKept(mentions[..|mentions| - 1], acc)
    requires d.Count(mentions[|mentions| - 1].1) == mentions[|mentions| - 1].0
    requires forall c :: c != mentions[|mentions| - 1].1 ==> d.Count(c) == acc.Count(c)
    ensures LastMentionsKept(mentions, d)
  {
    var n := |mentions| - 1;
    var front := mentions[..n];
    forall c | Mentioned(mentions, c) ensures CountOfLast(mentions, c, d) {
      if c == mentions[n].1 {
        assert LastMention(mentions, c, n);
      } else {
        var i0 :| 0 <= i0 < |mentions| && mentions[i0].1 == c;
        assert front[i0].1 == c && Mentioned(front, c);
        var i :| LastMention(front, c, i) && acc.Count(c) == front[i].0;
        assert LastMention(mentions, c, i);
      }
    }
  }

  /** The limits of `part1`: 12 red, 13 green and 14 blue cubes. */
  predicate WithinLimits(d: Draw)
  {
    d.r <= 12 && d.g <= 13 && d.b <= 14
  }

  /** The filter of `part1`. */
  predicate Possible(game: Game)
  {
    forall k :: 0 <= k < |game.draws| ==> WithinLimits(game.draws[k])
  }

  /** `part1`: the sum of the ids of the possible games; 0 exactly when no possible game has a
      positive id. */
  function Part1(games: seq<Game>): (total: nat)
    ensures total == 0 <==> forall k :: 0 <= k < |games| && Possible(games[k]) ==> games[k].id == 0
  {
    assert forall k :: 1 <= k < |games| ==> games[1..][k - 1] == games[k];
    if games == [] then 0
    else (if Possible(games[0]) then games[0].id else 0) + Part1(games[1..])
  }

  function Max(a: nat, b: nat): nat { if a >= b then a else b }

  /** The fold of `part2`: the colour-wise maximum over the draws, starting from 0. */
  function MaxDraw(draws: seq<Draw>): (m: Draw)
    ensures forall c, k :: 0 <= k < |draws| ==> draws[k].Count(c) <= m.Count(c)
    ensures forall c :: m.Count(c) == 0 || exists k :: 0 <= k < |draws| && draws[k].Count(c) == m.Count(c)
  {
    if draws == [] then Draw(0, 0, 0)
    else
      var acc := MaxDraw(draws[..|draws| - 1]);
      var d := draws[|draws| - 1];
      var m := Draw(Max(acc.r, d.r), Max(acc.g, d.g), Max(acc.b, d.b));
      assert forall k :: 0 <= k < |draws| - 1 ==> draws[..|draws| - 1][k] == draws[k];
      assert forall c :: m.Count(c) == Max(acc.Count(c), d.Count(c));
      assert forall c :: m.Count(c) == 0 || exists k :: 0 <= k < |draws| && draws[k].Count(c) == m.Count(c) by {
        forall c ensures m.Count(c) == 0 || exists k :: 0 <= k < |draws| && draws[k].Count(c) == m.Count(c) {
          if m.Count(c) != d.Count(c) && m.Count(c) != 0 {
            var k :| 0 <= k < |draws| - 1 && draws[..|draws| - 1][k].Count(c) == acc.Count(c);
            assert draws[k].Count(c) == m.Count(c);
          }
        }
      }
      m
  }

  /** Colour `c` shows up in no draw of the game. */
  predicate Unseen(game: Game, c: Color)
  {
    forall k :: 0 <= k < |game.draws| ==> game.draws[k].Count(c) == 0
  }

  /** The power of a game: the product of the three maxima, 0 exactly when some colour never
      shows up. */
  function Power(game: Game): (p: nat)
    ensures p == 0 <==> exists c :: Unseen(game, c)
  {
    var m := MaxDraw(game.draws);
    MaxZeroIffUnseen(game, Red);
    MaxZeroIffUnseen(game, Green);
    MaxZeroIffUnseen(game, Blue);
    UnseenColour(game);
    ProductZero(m.r, m.g, m.b);
    m.r * m.g * m.b
  }

  /** The maximum of a colour is 0 exactly when the colour never shows up. */
  lemma MaxZeroIffUnseen(game: Game, c: Color)
    ensures MaxDraw(game.draws).Count(c) == 0 <==> Unseen(game, c)
  {
    var m := MaxDraw(game.draws);
    if m.Count(c) != 0 {
      var k :| 0 <= k < |game.draws| && game.draws[k].Count(c) == m.Count(c);
    }
  }

  lemma UnseenColour(game: Game)
    ensures (exists c :: Unseen(game, c)) <==> Unseen(game, Red) || Unseen(game, Green) || Unseen(game, Blue)
  {
  }

  lemma ProductZero(a: nat, b: nat, c: nat)
    ensures a * b * c == 0 <==> a == 0 || b == 0 || c == 0
  {
    if a != 0 && b != 0 && c != 0 {
      MulMono(1, 1, a, b);
      MulMono(1, 1, a * b, c);
    }
  }

  /** `part2`: the sum of the powers, at least the power of every game. */
  function Part2(games: seq<Game>): (total: nat)
    ensures forall k :: 0 <= k < |games| ==> Power(games[k]) <= total
  {
    assert forall k :: 1 <= k < |games| ==> games[1..][k - 1] == games[k];
    if games == [] then 0 else Power(games[0]) + Part2(games[1..])
  }

  /** A game passes the filter of `part1` exactly when its maxima are within the limits. */
  lemma PossibleIffMaxima(game: Game)
    ensures Possible(game) <==> WithinLimits(MaxDraw(game.draws))
  {
    var m := MaxDraw(game.draws);
    if !WithinLimits(m) {
      if m.r > 12 {
        var k :| 0 <= k < |game.draws| && game.draws[k].Count(Red) == m.Count(Red);
        assert !WithinLimits(game.draws[k]);
      } else if m.g > 13 {
        var k :| 0 <= k < |game.draws| && game.draws[k].Count(Green) == m.Count(Green);
        assert !WithinLimits(game.draws[k]);
      } else {
        var k :| 0 <= k < |game.draws| && game.draws[k].Count(Blue) == m.Count(Blue);
        assert !WithinLimits(game.draws[k]);
      }
    } else {
      forall k | 0 <= k < |game.draws| ensures WithinLimits(game.draws[k]) {
        assert game.draws[k].Count(Red) <= m.Count(Red);
        assert game.draws[k].Count(Green) <= m.Count(Green);
        assert game.draws[k].Count(Blue) <= m.Count(Blue);
      }
    }
  }

  /** A game with no draws is possible and has power 0. */
  lemma EmptyGame(id: nat)
    ensures Possible(Game(id, [])) && Power(Game(id, [])) == 0
  {
  }

  /** The power is at least the product of the counts of any single draw. */
  lemma PowerBound(game: Game, k: nat)
    requires k < |game.draws|
    ensures game.draws[k].r * game.draws[k].g * game.draws[k].b <= Power(game)
  {
    var m := MaxDraw(game.draws);
    var d := game.draws[k];
    assert d.Count(Red) <= m.Count(Red) && d.Count(Green) <= m.Count(Green) && d.Count(Blue) <= m.Count(Blue);
    MulMono(d.r, d.g, m.r, m.g);
    MulMono(d.r * d.g, d.b, m.r * m.g, m.b);
  }

  lemma MulMono(a: nat, b: nat, c: nat, d: nat)
    requires a <= c && b <= d
    ensures a * b <= c * d
  {
    assert a * b <= c * b;
  }

  /** The sum of `part1` is bounded by the sum of all ids, and reaches it when every game is
      possible. */
  lemma {:induction false} Part1Bounds(games: seq<Game>)
    ensures Part1(games) <= IdSum(games)
    ensures (forall k :: 0 <= k < |games| ==> Possible(games[k])) ==> Part1(games) == IdSum(games)
  {
    if games != [] {
      Part1Bounds(games[1..]);
      assert forall k :: 1 <= k < |games| ==> games[1..][k - 1] == games[k];
    }
  }

  function IdSum(games: seq<Game>): nat
  {
    if games == [] then 0 else games[0].id + IdSum(games[1..])
  }
}
