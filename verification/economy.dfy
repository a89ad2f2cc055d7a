/** Money, kept in whole cents: the award for finishing a round, the interest
    paid at the recap, and the shop's prices. */
module Economy {
  import opened Cards

  /** Finishing a round pays one currency unit (100 cents) per hand left;
      the count is taken as it stands, so it may be zero or negative. */
  function Award(handsRemaining: int): (cents: int)
    ensures handsRemaining > 0 ==> cents > 0
    ensures handsRemaining <= 0 ==> cents <= 0
    ensures cents % 100 == 0
  {
    100 * handsRemaining
  }

  /** Twenty percent of the money, rounded to the nearest cent. A fifth of a
      whole number of cents is never exactly halfway between two cents, so the
      rounding is never a tie. */
  function Interest(cents: int): (i: int)
    ensures Abs(5 * i - cents) <= 2
  {
    (cents + 2) / 5
  }

  /** The interest is THE nearest cent: every other amount is further away. */
  lemma InterestIsNearest(cents: int, j: int)
    requires j != Interest(cents)
    ensures Abs(5 * j - cents) > Abs(5 * Interest(cents) - cents)
  {
    var i := Interest(cents);
    if j > i {
      assert 5 * j - cents >= 5 * i - cents + 5;
    } else {
      assert 5 * j - cents <= 5 * i - cents - 5;
    }
  }

  /** Interest never turns the sign of the balance, and a balance under three
      cents earns nothing. */
  lemma InterestSign(cents: int)
    ensures cents >= 0 ==> Interest(cents) >= 0
    ensures 0 <= cents <= 2 ==> Interest(cents) == 0
    ensures cents <= 0 ==> Interest(cents) <= 0
  {
  }

  datatype ShopItem = ExtraDiscard | LargerHand | BonusPoints

  /** Prices in cents: five, ten and fifteen currency units (100 cents each). */
  function Cost(item: ShopItem): (cents: nat)
    ensures cents % 500 == 0 && 500 <= cents <= 1500
  {
    match item
    case ExtraDiscard => 500
    case LargerHand => 1000
    case BonusPoints => 1500
  }
}
