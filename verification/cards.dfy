/** The data model of the short deck: five suits (the fifth is the star suit),
    ranks eight to ace, cards that carry their selection flag, and the poker
    hand categories with their order numbers. */
module Cards {

  datatype Option<+T> = None | Some(value: T)

  function Max(a: int, b: int): int {
    if a >= b then a else b
  }

  function Min(a: int, b: int): int {
    if a <= b then a else b
  }

  function Max0(x: int): int {
    if x < 0 then 0 else x
  }

  function Abs(x: int): nat {
    if x < 0 then -x else x
  }

  datatype Suit = Spades | Hearts | Diamonds | Clubs | Stars

  /** Ranks 8..14; 11, 12, 13 and 14 are jack, queen, king and ace. */
  type Rank = r: int | 8 <= r <= 14 witness 8

  /** A card as the hand holds it: the selection flag travels with the card. */
  datatype Card = Card(suit: Suit, rank: Rank, selected: bool)

  /** Hand categories; `Order` is the number each category is paired with. */
  datatype HandType =
    | HighCard | Pair | TwoPair | ThreeOfAKind | Straight | Flush
    | FullHouse | FourOfAKind | StraightFlush | RoyalFlush | FiveOfAKind
  {
    function Order(): nat {
      match this
      case HighCard => 0
      case Pair => 1
      case TwoPair => 2
      case ThreeOfAKind => 3
      case Straight => 4
      case Flush => 5
      case FullHouse => 6
      case FourOfAKind => 7
      case StraightFlush => 8
      case RoyalFlush => 9
      case FiveOfAKind => 10
    }
  }

  /** Distinct categories carry distinct order numbers. */
  lemma OrderInjective(a: HandType, b: HandType)
    ensures a.Order() == b.Order() <==> a == b
  {
  }

  // ---------------------------------------------------------------------------
  // Card identity

  /** The physical card: suit and rank. Two cards with equal keys are copies
      of the same card of the deck, whatever their selection flags. */
  function Key(c: Card): (Suit, Rank) {
    (c.suit, c.rank)
  }

  function Keys(cs: seq<Card>): seq<(Suit, Rank)> {
    seq(|cs|, i requires 0 <= i < |cs| => Key(cs[i]))
  }

  predicate Distinct<T(==)>(s: seq<T>) {
    forall i, j | 0 <= i < j < |s| :: s[i] != s[j]
  }

  /** Every element of the multiset occurs once. */
  predicate NoRepeats<T>(m: multiset<T>) {
    forall x | x in m :: m[x] == 1
  }

  lemma KeysConcat(a: seq<Card>, b: seq<Card>)
    ensures Keys(a + b) == Keys(a) + Keys(b)
  {
  }

  /** Moving cards around (a sub-multiset of the cards) gives a sub-multiset
      of their keys. */
  lemma {:induction false} KeysSubBag(a: seq<Card>, b: seq<Card>)
    requires multiset(a) <= multiset(b)
    ensures multiset(Keys(a)) <= multiset(Keys(b))
    decreases |a|
  {
    if |a| > 0 {
      var x := a[0];
      assert x in multiset(a);
      var i :| 0 <= i < |b| && b[i] == x;
      var rest := b[..i] + b[i + 1..];
      RemoveAt(a, b, i);
      KeysSubBag(a[1..], rest);
      KeysAt(b, i);
      assert a == [x] + a[1..];
      KeysConcat([x], a[1..]);
    }
  }

  /** Taking the same card out of both sides keeps the sub-multiset relation. */
  lemma RemoveAt(a: seq<Card>, b: seq<Card>, i: int)
    requires multiset(a) <= multiset(b) && |a| > 0 && 0 <= i < |b| && b[i] == a[0]
    ensures multiset(a[1..]) <= multiset(b[..i] + b[i + 1..])
  {
    var x := a[0];
    var rest := b[..i] + b[i + 1..];
    assert b == b[..i] + [x] + b[i + 1..];
    assert a == [x] + a[1..];
    assert multiset(b) == multiset(rest) + multiset{x};
    assert multiset(a) == multiset(a[1..]) + multiset{x};
    forall y ensures multiset(a[1..])[y] <= multiset(rest)[y] {
      assert multiset(a)[y] <= multiset(b)[y];
    }
  }

  /** The keys of b are the keys of b without its i-th card, plus that card's key. */
  lemma KeysAt(b: seq<Card>, i: int)
    requires 0 <= i < |b|
    ensures multiset(Keys(b)) == multiset(Keys(b[..i] + b[i + 1..])) + multiset{Key(b[i])}
  {
    assert b == b[..i] + [b[i]] + b[i + 1..];
    KeysConcat(b[..i] + [b[i]], b[i + 1..]);
    KeysConcat(b[..i], [b[i]]);
    KeysConcat(b[..i], b[i + 1..]);
  }

  /** A sequence has distinct elements exactly when its multiset has no repeats. */
  lemma {:induction false} DistinctIffNoRepeats<T>(s: seq<T>)
    ensures Distinct(s) <==> NoRepeats(multiset(s))
  {
    if |s| > 0 {
      DistinctIffNoRepeats(s[1..]);
      assert s == [s[0]] + s[1..];
      assert multiset(s) == multiset{s[0]} + multiset(s[1..]);
      if Distinct(s) {
        forall j | 0 <= j < |s[1..]| ensures s[1..][j] != s[0] {
          assert s[1..][j] == s[j + 1];
        }
        assert s[0] !in s[1..];
        assert Distinct(s[1..]) by {
          forall i, j | 0 <= i < j < |s[1..]| ensures s[1..][i] != s[1..][j] {
            assert s[1..][i] == s[i + 1] && s[1..][j] == s[j + 1];
          }
        }
      }
      if NoRepeats(multiset(s)) {
        assert multiset(s)[s[0]] == 1;
        assert s[0] !in multiset(s[1..]);
        forall x | x in multiset(s[1..]) ensures multiset(s[1..])[x] == 1 {
          assert x in multiset(s);
        }
        forall i, j | 0 <= i < j < |s| ensures s[i] != s[j] {
          if i == 0 {
            assert s[j] == s[1..][j - 1];
            assert s[j] in s[1..];
          } else {
            assert s[i] == s[1..][i - 1] && s[j] == s[1..][j - 1];
          }
        }
      }
    }
  }

  /** Dropping and rearranging elements keeps them distinct. */
  lemma DistinctOfSubBag<T>(a: seq<T>, b: seq<T>)
    requires multiset(a) <= multiset(b)
    requires Distinct(b)
    ensures Distinct(a)
  {
    DistinctIffNoRepeats(a);
    DistinctIffNoRepeats(b);
    forall x | x in multiset(a) ensures multiset(a)[x] == 1 {
      assert x in multiset(b);
    }
  }

  /** Keys that were distinct stay distinct when some of the cards are dropped
      and the rest are moved around. */
  lemma DistinctKeysOfSubBag(a: seq<Card>, b: seq<Card>)
    requires multiset(a) <= multiset(b)
    requires Distinct(Keys(b))
    ensures Distinct(Keys(a))
  {
    KeysSubBag(a, b);
    DistinctOfSubBag(Keys(a), Keys(b));
  }

  // ---------------------------------------------------------------------------
  // The deck

  function SuitAt(i: int): Suit
    requires 0 <= i < 5
  {
    [Spades, Hearts, Diamonds, Clubs, Stars][i]
  }

  function SuitIndex(s: Suit): nat {
    match s
    case Spades => 0
    case Hearts => 1
    case Diamonds => 2
    case Clubs => 3
    case Stars => 4
  }

  /** The 35 cards, suit by suit and within a suit from eight to ace, none selected. */
  function FullDeck(): seq<Card> {
    seq(35, i requires 0 <= i < 35 => Card(SuitAt(i / 7), 8 + i % 7, false))
  }

  /** The deck holds every (suit, rank) pair exactly once, unselected. */
  lemma FullDeckComplete()
    ensures |FullDeck()| == 35
    ensures forall c | c in FullDeck() :: !c.selected
    ensures forall s: Suit, r: Rank :: Card(s, r, false) in FullDeck()
    ensures Distinct(Keys(FullDeck()))
  {
    var d := FullDeck();
    forall s: Suit, r: Rank ensures Card(s, r, false) in d {
      var i := SuitIndex(s) * 7 + (r - 8);
      assert i / 7 == SuitIndex(s) && i % 7 == r - 8;
      assert d[i] == Card(s, r, false);
    }
    forall i, j | 0 <= i < j < 35 ensures Keys(d)[i] != Keys(d)[j] {
      if i / 7 == j / 7 {
        assert i % 7 != j % 7;
      } else {
        assert SuitAt(i / 7) != SuitAt(j / 7);
      }
    }
  }

  // ---------------------------------------------------------------------------
  // Card text

  function RankText(r: Rank): string {
    match r
    case 11 => "J"
    case 12 => "Q"
    case 13 => "K"
    case 14 => "A"
    case 10 => "10"
    case 9 => "9"
    case _ => "8"
  }

  function SuitSymbol(s: Suit): char {
    match s
    case Spades => '♠'
    case Hearts => '♥'
    case Diamonds => '♦'
    case Clubs => '♣'
    case Stars => 'X'
  }

  /** The card's label: its rank text followed by its suit symbol. */
  function CardText(c: Card): (t: string)
    ensures 2 <= |t| <= 3
    ensures t[|t| - 1] == SuitSymbol(c.suit)
    ensures |t| == 3 <==> c.rank == 10
  {
    RankText(c.rank) + [SuitSymbol(c.suit)]
  }

  function ParseRank(t: string): Option<Rank> {
    if t == "8" then Some(8)
    else if t == "9" then Some(9)
    else if t == "10" then Some(10)
    else if t == "J" then Some(11)
    else if t == "Q" then Some(12)
    else if t == "K" then Some(13)
    else if t == "A" then Some(14)
    else None
  }

  function ParseSuit(ch: char): Option<Suit> {
    if ch == '♠' then Some(Spades)
    else if ch == '♥' then Some(Hearts)
    else if ch == '♦' then Some(Diamonds)
    else if ch == '♣' then Some(Clubs)
    else if ch == 'X' then Some(Stars)
    else None
  }

  /** Reads a card label back into its suit and rank. */
  function ParseCard(t: string): Option<(Suit, Rank)> {
    if |t| == 0 then None
    else match (ParseRank(t[..|t| - 1]), ParseSuit(t[|t| - 1]))
      case (Some(r), Some(s)) => Some((s, r))
      case _ => None
  }

  /** The label names the card: reading it back gives the card's key. */
  lemma CardTextRoundTrip(c: Card)
    ensures ParseCard(CardText(c)) == Some(Key(c))
  {
    var t := CardText(c);
    assert t[..|t| - 1] == RankText(c.rank);
  }
}
