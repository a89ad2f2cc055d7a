/** Points for a played selection: a base amount for the hand category plus a
    bonus for each face card and ace. */
module Scoring {
  import opened Cards
  import opened HandEvaluator

  /** The base points of each category. */
  function BasePoints(t: HandType): (p: nat)
    ensures 5 <= p <= 150
  {
    match t
    case HighCard => 5
    case Pair => 10
    case TwoPair => 20
    case ThreeOfAKind => 30
    case Straight => 30
    case Flush => 35
    case FullHouse => 40
    case FourOfAKind => 60
    case StraightFlush => 100
    case RoyalFlush => 100
    case FiveOfAKind => 150
  }

  /** The extra points one card adds: one for a jack, up to four for an ace. */
  function FaceBonus(r: Rank): nat {
    if r > 10 then r - 10 else 0
  }

  /** The bonus of the cards, summed from the first card to the last. */
  function FaceBonusTotal(cards: seq<Card>): (total: nat)
    ensures total <= 4 * |cards|
    ensures (forall i | 0 <= i < |cards| :: cards[i].rank <= 10) ==> total == 0
  {
    if |cards| == 0 then 0
    else FaceBonusTotal(cards[..|cards| - 1]) + FaceBonus(cards[|cards| - 1].rank)
  }

  /** The category of the selection (none for no cards) and its points. The
      category is the one the poker rules name, and one to five cards score
      between 5 and 170 points. */
  function CalculateHandScore(cards: seq<Card>): (r: (Option<HandType>, int))
    ensures r.0 == None <==> |cards| == 0
    ensures |cards| == 0 ==> r.1 == 0
    ensures |cards| > 0 ==> r.0 == Some(ReferenceCategory(cards))
    ensures |cards| > 0 ==> r.1 == BasePoints(ReferenceCategory(cards)) + FaceBonusTotal(cards)
    ensures |cards| > 0 ==> r.1 >= 5
    ensures 0 < |cards| <= 5 ==> 5 <= r.1 <= 170
  {
    if |cards| == 0 then (None, 0)
    else
      EvaluateMatchesReference(cards);
      var t := EvaluateHand(cards).0;
      var base := BasePoints(t);
      var bonus := FaceBonusTotal(cards);
      assert 5 <= base + bonus;
      (Some(t), base + bonus)
  }

  /** The program's loop over the cards: starting from the base points, add
      each card's bonus in turn. */
  method AddFaceBonuses(cards: seq<Card>, base: int) returns (points: int)
    ensures points == base + FaceBonusTotal(cards)
  {
    points := base;
    var i := 0;
    while i < |cards|
      invariant 0 <= i <= |cards|
      invariant points == base + FaceBonusTotal(cards[..i])
    {
      assert cards[..i + 1][..i] == cards[..i];
      points := points + FaceBonus(cards[i].rank);
      i := i + 1;
    }
    assert cards[..i] == cards;
  }

  /** The program's computation step by step: classify, look up the base
      points, then add the bonuses card by card. The category is the one the
      poker rules name, and one to five cards score between 5 and 170. */
  method ScoreHand(cards: seq<Card>) returns (t: Option<HandType>, points: int)
    ensures |cards| == 0 ==> t == None && points == 0
    ensures |cards| > 0 ==> t == Some(ReferenceCategory(cards))
    ensures |cards| > 0 ==> points == BasePoints(ReferenceCategory(cards)) + FaceBonusTotal(cards)
    ensures 0 < |cards| <= 5 ==> 5 <= points <= 170
  {
    if |cards| == 0 {
      return None, 0;
    }
    var category := EvaluateHand(cards).0;
    EvaluateMatchesReference(cards);
    points := AddFaceBonuses(cards, BasePoints(category));
    t := Some(category);
    assert points == CalculateHandScore(cards).1;
  }

  /** The bonus of five cards, card by card. */
  lemma FaceBonusFive(cards: seq<Card>)
    requires |cards| == 5
    ensures FaceBonusTotal(cards) == FaceBonus(cards[0].rank) + FaceBonus(cards[1].rank)
      + FaceBonus(cards[2].rank) + FaceBonus(cards[3].rank) + FaceBonus(cards[4].rank)
  {
    assert cards[..4][..3] == cards[..3];
    assert cards[..3][..2] == cards[..2];
    assert cards[..2][..1] == cards[..1];
    assert cards[..1][..0] == [];
  }

  lemma LowStraightFlushCategory(cards: seq<Card>)
    requires |cards| == 5
    requires forall i | 0 <= i < 5 :: cards[i].suit == cards[0].suit && cards[i].rank == 8 + i
    ensures ReferenceCategory(cards) == StraightFlush
  {
    forall r ensures Count(cards, r) == Hit(cards[0], r) + Hit(cards[1], r) + Hit(cards[2], r) + Hit(cards[3], r) + Hit(cards[4], r) {
      CountFive(cards, r);
    }
    assert RunFrom(cards, 8);
    assert OneSuit(cards);
    assert !RunFrom(cards, 10) by {
      var r: Rank := 8;
      assert Count(cards, r) == 1;
    }
  }

  /** Eight to queen in one suit is a straight flush worth 100 + 1 + 2 = 103. */
  lemma LowStraightFlushScores(cards: seq<Card>)
    requires |cards| == 5
    requires forall i | 0 <= i < 5 :: cards[i].suit == cards[0].suit && cards[i].rank == 8 + i
    ensures CalculateHandScore(cards).0 == Some(StraightFlush)
    ensures CalculateHandScore(cards).1 == 103
  {
    LowStraightFlushCategory(cards);
    FaceBonusFive(cards);
    assert FaceBonusTotal(cards) == 3;
    assert BasePoints(ReferenceCategory(cards)) == 100;
  }

  lemma AcesFullOfKingsCategory(cards: seq<Card>)
    requires |cards| == 5
    requires cards[0].rank == 14 && cards[1].rank == 14 && cards[2].rank == 14
    requires cards[3].rank == 13 && cards[4].rank == 13
    ensures ReferenceCategory(cards) == FullHouse
  {
    forall r ensures Count(cards, r) == Hit(cards[0], r) + Hit(cards[1], r) + Hit(cards[2], r) + Hit(cards[3], r) + Hit(cards[4], r) {
      CountFive(cards, r);
    }
    assert !IsRun(cards) by {
      var r: Rank := 10;
      assert Count(cards, r) == 0;
    }
    assert TopCount(cards) == 3;
    assert Kinds(cards, 3) == 1;
    assert Kinds(cards, 2) == 1;
  }

  /** Three aces and two kings are a full house worth 40 + 3 * 4 + 2 * 3 = 58. */
  lemma AcesFullOfKingsScores(cards: seq<Card>)
    requires |cards| == 5
    requires cards[0].rank == 14 && cards[1].rank == 14 && cards[2].rank == 14
    requires cards[3].rank == 13 && cards[4].rank == 13
    ensures CalculateHandScore(cards).0 == Some(FullHouse)
    ensures CalculateHandScore(cards).1 == 58
  {
    AcesFullOfKingsCategory(cards);
    FaceBonusFive(cards);
    assert FaceBonusTotal(cards) == 18;
    assert BasePoints(ReferenceCategory(cards)) == 40;
  }
}
