/** The game's round state machine: playing and discarding selections, the
    round's target, the award and interest, the shop, the next round and the
    restart. Time is a parameter (milliseconds since start) and the shuffle is
    a parameter too. */
module Game {
  import opened Cards
  import opened Scoring
  import opened Zones
  import opened Economy

  const StartingHands := 5
  const StartingTarget := 100
  const StartingDiscards := 3
  const StartingHandSize := 8
  /** The played cards stay on screen this long before the hand is refilled. */
  const ScoringMillis := 3500
  /** The round-complete animation runs this long before the recap appears. */
  const RecapMillis := 1500
  const PotCount := 3
  const LevelCount := 3

  datatype State = State(
    table: Table,
    /** The cards of the last played selection, shown by the scoring animation. */
    inFlight: seq<Card>,
    score: int,
    points: int,
    round: int,
    handType: Option<HandType>,
    handsRemaining: int,
    basePointsRequired: int,
    pointsRemaining: int,
    gameOver: bool,
    potIndex: int,
    levelIndex: int,
    maxDiscardsPerRound: int,
    discardsRemaining: int,
    maxHandSize: int,
    scoringAnimation: bool,
    animationStart: int,
    roundCompleteAnimation: bool,
    roundCompleteStart: int,
    showRoundRecap: bool,
    roundComplete: bool,
    /** Money and the round's earnings, in cents. */
    money: int,
    moneyEarnedThisRound: int,
    interestEarnedThisRound: int,
    showShopMenu: bool)

  /** Every card the game holds: deck, hand, discard pile and the played cards. */
  function AllCards(s: State): seq<Card> {
    Contents(s.table) + s.inFlight
  }

  /** No physical card is held twice. */
  predicate CardsDistinct(s: State) {
    Distinct(Keys(AllCards(s)))
  }

  // ---------------------------------------------------------------------------
  // Starting a game

  /** A newly built and shuffled deck, with a hand dealt from it. */
  function FreshTable(maxHand: int, sh: Shuffler): (t: Table)
    requires IsShuffler(sh)
    ensures Distinct(Keys(Contents(t)))
  {
    var start := Table(sh(FullDeck()), [], []);
    FullDeckComplete();
    assert Contents(start) == sh(FullDeck());
    DistinctKeysOfSubBag(Contents(start), FullDeck());
    DealKeepsDistinct(start, maxHand, [], sh);
    DealHand(start, maxHand, [], sh)
  }

  /** A shuffled full deck holds 35 cards, none of them selected. */
  lemma ShuffledDeck(sh: Shuffler)
    requires IsShuffler(sh)
    ensures |sh(FullDeck())| == 35
    ensures forall j | 0 <= j < 35 :: !sh(FullDeck())[j].selected
  {
    var d := sh(FullDeck());
    FullDeckComplete();
    assert |multiset(d)| == 35;
    forall j | 0 <= j < 35 ensures !d[j].selected {
      assert d[j] in multiset(FullDeck());
    }
  }

  /** With room for the deck to keep five cards, a fresh deal fills the hand
      and leaves the other cards of the deck in it. */
  lemma FreshTableSizes(maxHand: int, sh: Shuffler)
    requires IsShuffler(sh)
    requires 0 <= maxHand <= 30
    ensures |FreshTable(maxHand, sh).hand| == maxHand
    ensures |FreshTable(maxHand, sh).deck| == 35 - maxHand
    ensures FreshTable(maxHand, sh).discard == []
  {
    ShuffledDeck(sh);
    var start := Table(sh(FullDeck()), [], []);
    assert Kept(start, []) == [] && Pile(start, []) == [];
    assert Dealt(start, maxHand, []) == maxHand;
  }

  /** A fresh deal moves cards from the new deck to the hand and loses none:
      deck and hand together are the full deck. */
  lemma FreshTableHoldsFullDeck(maxHand: int, sh: Shuffler)
    requires IsShuffler(sh)
    requires maxHand <= 30
    ensures multiset(FreshTable(maxHand, sh).deck + FreshTable(maxHand, sh).hand) == multiset(FullDeck())
  {
    ShuffledDeckSize(sh);
    var d := sh(FullDeck());
    var start := Table(d, [], []);
    assert Kept(start, []) == [] && Pile(start, []) == [];
    var n := Dealt(start, maxHand, []);
    assert FreshTable(maxHand, sh) == Table(d[..|d| - n], [] + Reversed(d[|d| - n..]), []);
    DrawnSplit(d, n);
  }

  /** A shuffled full deck holds 35 cards. */
  lemma ShuffledDeckSize(sh: Shuffler)
    requires IsShuffler(sh)
    ensures |sh(FullDeck())| == 35
  {
    FullDeckComplete();
    assert |multiset(sh(FullDeck()))| == 35;
  }

  /** Cards drawn from a deck's end onto an empty hand, with the rest of the
      deck, are the deck's cards. */
  lemma DrawnSplit(d: seq<Card>, n: nat)
    requires n <= |d|
    ensures multiset(d[..|d| - n] + Reversed(d[|d| - n..])) == multiset(d)
  {
    assert d == d[..|d| - n] + d[|d| - n..];
    ReversedSameCards(d[|d| - n..]);
  }

  /** A fresh hand holds no selected card. */
  lemma FreshHandUnselected(maxHand: int, sh: Shuffler)
    requires IsShuffler(sh)
    ensures SelectedCount(FreshTable(maxHand, sh).hand) == 0
  {
    var d := sh(FullDeck());
    var start := Table(d, [], []);
    assert Kept(start, []) == [];
    var n := Dealt(start, maxHand, []);
    assert FreshTable(maxHand, sh).hand == Reversed(d[|d| - n..]);
    ShuffledDrawnUnselected(sh, n);
  }

  /** Cards drawn from a shuffled full deck are unselected. */
  lemma ShuffledDrawnUnselected(sh: Shuffler, n: nat)
    requires IsShuffler(sh)
    requires n <= |sh(FullDeck())|
    ensures SelectedCount(Reversed(sh(FullDeck())[|sh(FullDeck())| - n..])) == 0
  {
    ShuffledDeck(sh);
    DrawnUnselected(sh(FullDeck()), n);
  }


  lemma DrawnUnselected(d: seq<Card>, n: nat)
    requires n <= |d|
    requires forall j | 0 <= j < |d| :: !d[j].selected
    ensures SelectedCount(Reversed(d[|d| - n..])) == 0
  {
    var drawn := d[|d| - n..];
    var hand := Reversed(drawn);
    ReversedAt(drawn);
    forall j | 0 <= j < |hand| ensures !hand[j].selected {
      assert hand[j] == drawn[n - 1 - j] == d[|d| - 1 - j];
    }
    NoneSelected(hand);
  }

  /** The state the program starts in: round one, five hands, a target of 100
      points, three discards, a hand of eight, no money. */
  function Initial(sh: Shuffler): (s: State)
    requires IsShuffler(sh)
    ensures CardsDistinct(s)
    ensures s.pointsRemaining == s.basePointsRequired == StartingTarget
    ensures !s.gameOver && !s.roundComplete && !s.showRoundRecap && !s.showShopMenu
  {
    var t := FreshTable(StartingHandSize, sh);
    var s := State(
      table := t, inFlight := [],
      score := 0, points := 0, round := 1, handType := None,
      handsRemaining := StartingHands,
      basePointsRequired := StartingTarget, pointsRemaining := StartingTarget,
      gameOver := false,
      potIndex := 0, levelIndex := 0,
      maxDiscardsPerRound := StartingDiscards, discardsRemaining := StartingDiscards,
      maxHandSize := StartingHandSize,
      scoringAnimation := false, animationStart := 0,
      roundCompleteAnimation := false, roundCompleteStart := 0,
      showRoundRecap := false, roundComplete := false,
      money := 0, moneyEarnedThisRound := 0, interestEarnedThisRound := 0,
      showShopMenu := false);
    assert AllCards(s) == Contents(t);
    s
  }

  /** The starting table: eight unselected cards in hand, the other
      twenty-seven in the deck, an empty pile, nothing played. */
  lemma InitialTable(sh: Shuffler)
    requires IsShuffler(sh)
    ensures var s := Initial(sh);
            && |s.table.hand| == StartingHandSize && |s.table.deck| == 35 - StartingHandSize
            && s.table.discard == [] && s.inFlight == [] && SelectedCount(s.table.hand) == 0
            && multiset(s.table.deck + s.table.hand) == multiset(FullDeck())
  {
    assert Initial(sh).table == FreshTable(StartingHandSize, sh);
    FreshTableFacts(StartingHandSize, sh);
  }

  /** The "Play Again" reset. It rebuilds every field the start sets, money and
      shop upgrades included, but leaves the round-complete animation flag and
      its start time as they were. */
  function RestartGame(s: State, sh: Shuffler): (r: State)
    requires IsShuffler(sh)
    ensures r == Initial(sh).(roundCompleteAnimation := s.roundCompleteAnimation,
                              roundCompleteStart := s.roundCompleteStart)
  {
    s.(round := 1, roundComplete := false,
       score := 0, points := 0, handType := None,
       handsRemaining := StartingHands,
       basePointsRequired := StartingTarget, pointsRemaining := StartingTarget,
       gameOver := false, potIndex := 0, levelIndex := 0,
       maxDiscardsPerRound := StartingDiscards, maxHandSize := StartingHandSize,
       discardsRemaining := StartingDiscards,
       scoringAnimation := false, inFlight := [], animationStart := 0,
       money := 0, moneyEarnedThisRound := 0, interestEarnedThisRound := 0,
       showRoundRecap := false, showShopMenu := false,
       table := FreshTable(StartingHandSize, sh))
  }

  // ---------------------------------------------------------------------------
  // Playing a hand

  /** Playing the selected cards. Nothing happens without a selection.
      Otherwise the selection is scored, its points count towards the score
      and against the points remaining (never below zero); a round that
      reaches zero remaining pays the award for the hands left (counted before
      this play) and starts the round-complete animation, unless it is already
      complete; one hand is used up; the game is over when no hand is left and
      the score is below the points remaining. The played cards leave the hand
      for the scoring animation. */
  function PlayHand(s: State, now: int): (r: (bool, State))
    ensures r.0 <==> SelectedCount(s.table.hand) > 0
    ensures !r.0 ==> r.1 == s
    ensures r.0 ==> r.1.handType == CalculateHandScore(Selected(s.table.hand)).0
    ensures r.0 ==> r.1.points == CalculateHandScore(Selected(s.table.hand)).1
    ensures r.0 ==> r.1.score == s.score + r.1.points
    ensures r.0 ==> r.1.pointsRemaining == Max0(s.pointsRemaining - r.1.points)
    ensures r.0 ==> r.1.handsRemaining == s.handsRemaining - 1
    ensures r.0 ==> (r.1.roundComplete <==> s.roundComplete || (r.1.pointsRemaining == 0 && !s.roundCompleteAnimation))
    ensures r.0 ==> r.1.money == s.money + (if r.1.roundComplete && !s.roundComplete then Award(s.handsRemaining) else 0)
    ensures r.0 ==> (r.1.gameOver <==> s.gameOver || (r.1.handsRemaining == 0 && r.1.score < r.1.pointsRemaining))
    ensures r.0 ==> r.1.table.hand == Unselected(s.table.hand) && r.1.inFlight == Selected(s.table.hand)
    ensures r.0 ==> r.1.table.deck == s.table.deck && r.1.table.discard == s.table.discard
    ensures r.0 ==> r.1.scoringAnimation && r.1.animationStart == now
    ensures r.0 && r.1.roundComplete && !s.roundComplete ==>
              r.1.roundCompleteAnimation && r.1.roundCompleteStart == now
              && r.1.moneyEarnedThisRound == Award(s.handsRemaining)
    ensures !(r.1.roundComplete && !s.roundComplete) ==>
              r.1.roundCompleteAnimation == s.roundCompleteAnimation
              && r.1.roundCompleteStart == s.roundCompleteStart
              && r.1.moneyEarnedThisRound == s.moneyEarnedThisRound
    ensures r.1.(handType := s.handType, points := s.points, score := s.score,
                 pointsRemaining := s.pointsRemaining, handsRemaining := s.handsRemaining,
                 gameOver := s.gameOver, roundComplete := s.roundComplete, money := s.money,
                 moneyEarnedThisRound := s.moneyEarnedThisRound,
                 roundCompleteAnimation := s.roundCompleteAnimation,
                 roundCompleteStart := s.roundCompleteStart,
                 scoringAnimation := s.scoringAnimation, animationStart := s.animationStart,
                 inFlight := s.inFlight, table := s.table) == s
  {
    var played := Selected(s.table.hand);
    if |played| == 0 then (false, s)
    else
      var scored := CalculateHandScore(played);
      (true, Scored(s, now, scored.0, scored.1))
  }

  /** The state after the selected cards of the hand scored `points`. */
  function Scored(s: State, now: int, handType: Option<HandType>, points: int): State {
    var remaining := Max0(s.pointsRemaining - points);
    var s1 :=
      if remaining <= 0 && !s.roundCompleteAnimation && !s.roundComplete then
        s.(roundComplete := true,
           moneyEarnedThisRound := Award(s.handsRemaining),
           money := s.money + Award(s.handsRemaining),
           roundCompleteAnimation := true, roundCompleteStart := now)
      else s;
    var hands := s.handsRemaining - 1;
    var score := s.score + points;
    s1.(handType := handType, points := points, score := score,
        pointsRemaining := remaining, handsRemaining := hands,
        gameOver := s.gameOver || (hands == 0 && score < remaining),
        scoringAnimation := true, animationStart := now,
        inFlight := Selected(s.table.hand),
        table := s.table.(hand := Unselected(s.table.hand)))
  }

  // ---------------------------------------------------------------------------
  // Selecting and discarding

  /** A click on the i-th card of the hand toggles its selection. */
  function Toggle(s: State, i: int): (r: State)
    ensures r.table.deck == s.table.deck && r.table.discard == s.table.discard
    ensures r.table.hand == ToggleSelection(s.table.hand, i)
    ensures r.(table := s.table) == s
  {
    s.(table := s.table.(hand := ToggleSelection(s.table.hand, i)))
  }

  /** The cards after a discard: the selected cards go to the discard pile,
      the hand is refilled and every card in it is unselected. */
  function DiscardCards(t: Table, maxHand: int, sh: Shuffler): (r: Table)
    requires IsShuffler(sh)
    ensures SelectedCount(r.hand) == 0
    ensures multiset(Keys(Contents(r))) <= multiset(Keys(Contents(t)))
  {
    var d := DealHand(t, maxHand, Selected(t.hand), sh);
    var r := d.(hand := ClearSelection(d.hand));
    DealConserves(t, maxHand, Selected(t.hand), sh);
    KeysSubBag(Contents(d), Contents(t));
    KeysConcat(d.deck + d.hand, d.discard);
    KeysConcat(d.deck, d.hand);
    KeysConcat(r.deck + r.hand, r.discard);
    KeysConcat(r.deck, r.hand);
    r
  }

  /** A discard deals like any other deal and then clears every flag in the hand. */
  lemma DiscardDeals(t: Table, maxHand: int, sh: Shuffler)
    requires IsShuffler(sh)
    ensures DiscardCards(t, maxHand, sh).deck == DealHand(t, maxHand, Selected(t.hand), sh).deck
    ensures DiscardCards(t, maxHand, sh).discard == DealHand(t, maxHand, Selected(t.hand), sh).discard
    ensures DiscardCards(t, maxHand, sh).hand == ClearSelection(DealHand(t, maxHand, Selected(t.hand), sh).hand)
  {
  }

  /** Without a reshuffle, a discard puts exactly the selected cards, in hand
      order, on top of the pile, keeps the unselected cards at the front of the
      hand and takes the replacements from the end of the deck. */
  lemma DiscardMovesSelection(t: Table, maxHand: int, sh: Shuffler)
    requires IsShuffler(sh)
    requires |t.deck| - Dealt(t, maxHand, Selected(t.hand)) >= 5
    ensures DiscardCards(t, maxHand, sh).discard == t.discard + Selected(t.hand)
    ensures DiscardCards(t, maxHand, sh).deck == t.deck[..|t.deck| - Dealt(t, maxHand, Selected(t.hand))]
    ensures DiscardCards(t, maxHand, sh).hand ==
              ClearSelection(Unselected(t.hand) + Reversed(t.deck[|t.deck| - Dealt(t, maxHand, Selected(t.hand))..]))
  {
    DealingSelectionHand(t, maxHand, sh);
    DealingSelectionPiles(t, maxHand, sh);
    DiscardDeals(t, maxHand, sh);
  }

  /** The discard button: with a discard left and some card selected, one
      discard is used and the cards are dealt as above. Otherwise nothing
      happens. */
  function Discard(s: State, sh: Shuffler): (r: State)
    requires IsShuffler(sh)
    ensures s.discardsRemaining <= 0 || SelectedCount(s.table.hand) == 0 ==> r == s
    ensures s.discardsRemaining > 0 && SelectedCount(s.table.hand) > 0 ==>
              r.discardsRemaining == s.discardsRemaining - 1 && r.table == DiscardCards(s.table, s.maxHandSize, sh)
    ensures r.(table := s.table, discardsRemaining := s.discardsRemaining) == s
  {
    if s.discardsRemaining > 0 && |Selected(s.table.hand)| > 0 then
      s.(discardsRemaining := s.discardsRemaining - 1,
         table := DiscardCards(s.table, s.maxHandSize, sh))
    else s
  }

  // ---------------------------------------------------------------------------
  // The shop

  /** Buying: when the money covers the price it is paid and the item takes
      effect (one more discard per round, one more card in hand; the bonus
      points item has no effect); otherwise nothing happens. */
  function Buy(s: State, item: ShopItem): (r: State)
    ensures s.money < Cost(item) ==> r == s
    ensures s.money >= Cost(item) ==> r.money == s.money - Cost(item) && r.money >= 0
    ensures r.maxDiscardsPerRound == s.maxDiscardsPerRound + (if item == ExtraDiscard && s.money >= Cost(item) then 1 else 0)
    ensures r.maxHandSize == s.maxHandSize + (if item == LargerHand && s.money >= Cost(item) then 1 else 0)
    ensures r.(money := s.money, maxDiscardsPerRound := s.maxDiscardsPerRound, maxHandSize := s.maxHandSize) == s
  {
    if s.money >= Cost(item) then
      var paid := s.(money := s.money - Cost(item));
      match item
      case ExtraDiscard => paid.(maxDiscardsPerRound := s.maxDiscardsPerRound + 1)
      case LargerHand => paid.(maxHandSize := s.maxHandSize + 1)
      case BonusPoints => paid
    else s
  }

  // ---------------------------------------------------------------------------
  // Timers

  /** When the scoring animation has run its course the hand is refilled. */
  function ScoringTimer(s: State, now: int, sh: Shuffler): (r: State)
    requires IsShuffler(sh)
    ensures s.scoringAnimation && now - s.animationStart >= ScoringMillis ==>
              !r.scoringAnimation && r.table == DealHand(s.table, s.maxHandSize, [], sh)
    ensures !(s.scoringAnimation && now - s.animationStart >= ScoringMillis) ==> r == s
    ensures r.(table := s.table, scoringAnimation := s.scoringAnimation) == s
  {
    if s.scoringAnimation && now - s.animationStart >= ScoringMillis then
      s.(scoringAnimation := false, table := DealHand(s.table, s.maxHandSize, [], sh))
    else s
  }

  /** When the round-complete animation has run its course the recap is shown
      and twenty percent interest is paid on the money. */
  function RoundTimer(s: State, now: int): (r: State)
    ensures s.roundCompleteAnimation && now - s.roundCompleteStart >= RecapMillis ==>
              !r.roundCompleteAnimation && r.showRoundRecap
              && r.interestEarnedThisRound == Interest(s.money)
              && r.money == s.money + Interest(s.money)
    ensures !(s.roundCompleteAnimation && now - s.roundCompleteStart >= RecapMillis) ==> r == s
    ensures r.(roundCompleteAnimation := s.roundCompleteAnimation, showRoundRecap := s.showRoundRecap,
               interestEarnedThisRound := s.interestEarnedThisRound, money := s.money) == s
  {
    if s.roundCompleteAnimation && now - s.roundCompleteStart >= RecapMillis then
      var interest := Interest(s.money);
      s.(roundCompleteAnimation := false, showRoundRecap := true,
         interestEarnedThisRound := interest, money := s.money + interest)
    else s
  }

  /** One frame: the scoring animation is updated first, then the
      round-complete animation. The two act independently, so both may fire
      in the same frame; the interest is paid on the money as it stood. */
  function Tick(s: State, now: int, sh: Shuffler): (r: State)
    requires IsShuffler(sh)
    ensures s.scoringAnimation && now - s.animationStart >= ScoringMillis ==>
              !r.scoringAnimation && r.table == DealHand(s.table, s.maxHandSize, [], sh)
    ensures !(s.scoringAnimation && now - s.animationStart >= ScoringMillis) ==>
              r.scoringAnimation == s.scoringAnimation && r.table == s.table
    ensures s.roundCompleteAnimation && now - s.roundCompleteStart >= RecapMillis ==>
              !r.roundCompleteAnimation && r.showRoundRecap
              && r.interestEarnedThisRound == Interest(s.money)
              && r.money == s.money + Interest(s.money)
    ensures !(s.roundCompleteAnimation && now - s.roundCompleteStart >= RecapMillis) ==>
              r.roundCompleteAnimation == s.roundCompleteAnimation
              && r.showRoundRecap == s.showRoundRecap
              && r.interestEarnedThisRound == s.interestEarnedThisRound && r.money == s.money
    ensures r.(table := s.table, scoringAnimation := s.scoringAnimation,
               roundCompleteAnimation := s.roundCompleteAnimation, showRoundRecap := s.showRoundRecap,
               interestEarnedThisRound := s.interestEarnedThisRound, money := s.money) == s
  {
    RoundTimer(ScoringTimer(s, now, sh), now)
  }

  // ---------------------------------------------------------------------------
  // The next round

  /** The round's target grows by half, truncated to a whole number. */
  function ScaleTarget(base: int): (next: int)
    requires base >= 0
    ensures 2 * next <= 3 * base < 2 * next + 2
  {
    base * 3 / 2
  }

  /** The pot advances cyclically; when it wraps around to the first pot the
      level advances cyclically too. */
  function NextPotLevel(pot: int, level: int): (r: (int, int))
    ensures 0 <= r.0 < PotCount
    ensures 0 <= level < LevelCount ==> 0 <= r.1 < LevelCount
    ensures r.0 == (pot + 1) % PotCount
    ensures r.0 != 0 ==> r.1 == level
  {
    var p := (pot + 1) % PotCount;
    (p, if p == 0 then (level + 1) % LevelCount else level)
  }

  /** What the next round does to everything but the table: the round
      advances, the score and the round's earnings clear, five hands and every
      discard are restored, the target grows by half and is all still to
      score, the recap, shop and scoring animation close, the played cards go,
      and the pot and level advance. Money, the shop's upgrades, the game-over
      flag and the round-complete animation are kept. */
  predicate RoundAdvanced(s: State, r: State)
    requires s.basePointsRequired >= 0
  {
    && r.round == s.round + 1 && r.score == 0 && r.points == 0 && r.handType == None
    && r.handsRemaining == StartingHands
    && r.basePointsRequired == r.pointsRemaining == ScaleTarget(s.basePointsRequired)
    && r.discardsRemaining == s.maxDiscardsPerRound
    && !r.roundComplete && !r.showRoundRecap && !r.showShopMenu
    && r.moneyEarnedThisRound == 0 && r.interestEarnedThisRound == 0
    && !r.scoringAnimation && r.animationStart == 0 && r.inFlight == []
    && (r.potIndex, r.levelIndex) == NextPotLevel(s.potIndex, s.levelIndex)
    && r.money == s.money && r.maxHandSize == s.maxHandSize
    && r.maxDiscardsPerRound == s.maxDiscardsPerRound && r.gameOver == s.gameOver
    && r.roundCompleteAnimation == s.roundCompleteAnimation
    && r.roundCompleteStart == s.roundCompleteStart
  }

  /** The fields the next round resets and advances, with the cards left alone. */
  function NextRoundCounters(s: State): State
    requires s.basePointsRequired >= 0
  {
    var target := ScaleTarget(s.basePointsRequired);
    var pl := NextPotLevel(s.potIndex, s.levelIndex);
    s.(round := s.round + 1, score := 0, points := 0, handType := None,
       handsRemaining := StartingHands,
       basePointsRequired := target, pointsRemaining := target,
       discardsRemaining := s.maxDiscardsPerRound,
       roundComplete := false, showRoundRecap := false, showShopMenu := false,
       moneyEarnedThisRound := 0, interestEarnedThisRound := 0,
       scoringAnimation := false, inFlight := [], animationStart := 0,
       potIndex := pl.0, levelIndex := pl.1)
  }

  /** The next round as the program writes it: a new full deck is built and the
      hand is filled from its end, while the old hand and the discard pile are
      kept. When the new deck falls below five cards, it is replaced by a
      shuffle of the old pile. */
  function StartNextRoundAsWritten(s: State, sh: Shuffler): (r: State)
    requires IsShuffler(sh)
    requires s.basePointsRequired >= 0
    ensures RoundAdvanced(s, r)
    ensures |s.table.hand| <= |r.table.hand| && r.table.hand[..|s.table.hand|] == s.table.hand
  {
    var dealt := DealHand(Table(sh(FullDeck()), s.table.hand, s.table.discard), s.maxHandSize, [], sh);
    KeepingDeal(sh(FullDeck()), s.table.hand, s.table.discard, s.maxHandSize, sh);
    CountersAdvance(s, dealt);
    NextRoundCounters(s).(table := dealt)
  }

  /** The table of the next round as written: the new deck is a rearrangement
      of the full deck; the old hand is kept and the new deck's last cards are
      drawn onto it; the old pile stays, unless the new deck falls below five
      cards and is replaced by a shuffle of the old pile. */
  lemma AsWrittenTable(s: State, sh: Shuffler)
    requires IsShuffler(sh)
    requires s.basePointsRequired >= 0
    ensures var d := sh(FullDeck());
            var n := DealCount(s.maxHandSize - |s.table.hand|, |d|);
            var r := StartNextRoundAsWritten(s, sh);
            && multiset(d) == multiset(FullDeck())
            && r.table.hand == s.table.hand + Reversed(d[|d| - n..])
            && (|d| - n >= 5 ==> r.table.deck == d[..|d| - n] && r.table.discard == s.table.discard)
            && (|d| - n < 5 ==> r.table.discard == [] && multiset(r.table.deck) == multiset(s.table.discard))
  {
    KeepingDeal(sh(FullDeck()), s.table.hand, s.table.discard, s.maxHandSize, sh);
  }

  /** The next round's counters, whatever table it ends up with. */
  lemma CountersAdvance(s: State, t: Table)
    requires s.basePointsRequired >= 0
    ensures RoundAdvanced(s, NextRoundCounters(s).(table := t))
  {
  }

  /** A deal that discards nothing keeps the hand and the pile, and draws the
      deck's last cards onto the hand. */
  lemma KeepingDeal(d: seq<Card>, hand: seq<Card>, discard: seq<Card>, maxHand: int, sh: Shuffler)
    requires IsShuffler(sh)
    ensures var n := DealCount(maxHand - |hand|, |d|);
            var r := DealHand(Table(d, hand, discard), maxHand, [], sh);
            && r.hand == hand + Reversed(d[|d| - n..])
            && (|d| - n >= 5 ==> r.deck == d[..|d| - n] && r.discard == discard)
            && (|d| - n < 5 ==> r.discard == [] && multiset(r.deck) == multiset(discard))
  {
    var t := Table(d, hand, discard);
    assert Kept(t, []) == hand && Pile(t, []) == discard;
  }

  /** The next round with the evident intent: every card goes back into a new
      full deck, as at the start of the game, and a fresh hand is dealt. */
  function StartNextRound(s: State, sh: Shuffler): (r: State)
    requires IsShuffler(sh)
    requires s.basePointsRequired >= 0
    ensures CardsDistinct(r)
    ensures RoundAdvanced(s, r)
    ensures SelectedCount(r.table.hand) == 0
    ensures 0 <= s.maxHandSize <= 30 ==>
              |r.table.hand| == s.maxHandSize && |r.table.deck| == 35 - s.maxHandSize
              && r.table.discard == []
              && multiset(r.table.deck + r.table.hand) == multiset(FullDeck())
  {
    var r := NextRoundCounters(s).(table := FreshTable(s.maxHandSize, sh));
    assert AllCards(r) == Contents(r.table);
    FreshTableFacts(s.maxHandSize, sh);
    r
  }

  /** What a fresh table holds: an unselected hand and, for hands of up to
      thirty cards, the whole deck split between deck and hand. */
  lemma FreshTableFacts(maxHand: int, sh: Shuffler)
    requires IsShuffler(sh)
    ensures var t := FreshTable(maxHand, sh);
            && SelectedCount(t.hand) == 0
            && (0 <= maxHand <= 30 ==>
                  |t.hand| == maxHand && |t.deck| == 35 - maxHand && t.discard == []
                  && multiset(t.deck + t.hand) == multiset(FullDeck()))
  {
    FreshHandUnselected(maxHand, sh);
    if 0 <= maxHand <= 30 {
      FreshTableSizes(maxHand, sh);
      FreshTableHoldsFullDeck(maxHand, sh);
    }
  }

  // ---------------------------------------------------------------------------
  // The event loop

  /** What the player (or the clock) does: a click on a control of the screen,
      or one frame of the event loop. */
  datatype Intent =
    | ClickCard(index: int)
    | ClickPlay
    | ClickDiscard
    | ClickShop
    | ClickBuy(item: ShopItem)
    | ClickContinue
    | ClickRestart
    | Frame

  /** One event. Once the game is over only the restart button acts and the
      animations stop. Buying and continuing need the shop, opening the shop
      needs the recap; the cards and the play and discard buttons answer in
      every other state. */
  function Step(s: State, e: Intent, now: int, sh: Shuffler): (r: State)
    requires IsShuffler(sh)
    requires s.basePointsRequired >= 0
    ensures s.gameOver && e != ClickRestart ==> r == s
    ensures !s.showShopMenu && (e.ClickBuy? || e == ClickContinue) ==> r == s
    ensures !s.showRoundRecap && e == ClickShop ==> r == s
    ensures !s.gameOver && e == ClickRestart ==> r == s
  {
    if s.gameOver then
      if e == ClickRestart then RestartGame(s, sh) else s
    else
      match e
      case ClickCard(i) => Toggle(s, i)
      case ClickPlay => PlayHand(s, now).1
      case ClickDiscard => Discard(s, sh)
      case ClickShop => if s.showRoundRecap then s.(showShopMenu := true) else s
      case ClickBuy(item) => if s.showShopMenu then Buy(s, item) else s
      case ClickContinue => if s.showShopMenu then StartNextRound(s, sh) else s
      case ClickRestart => s
      case Frame => Tick(s, now, sh)
  }

  // ---------------------------------------------------------------------------
  // The invariant

  /** What holds in every state the game reaches. */
  predicate Good(s: State) {
    CardsDistinct(s) && Consistent(s)
  }

  /** The counters and flags agree with each other. */
  predicate Consistent(s: State) {
    && s.round >= 1
    && 0 <= s.potIndex < PotCount && 0 <= s.levelIndex < LevelCount
    && s.score >= 0
    && s.basePointsRequired >= StartingTarget
    && s.pointsRemaining == Max0(s.basePointsRequired - s.score)
    && s.maxHandSize >= StartingHandSize && s.maxDiscardsPerRound >= StartingDiscards
    && 0 <= s.discardsRemaining <= s.maxDiscardsPerRound
    && s.handsRemaining <= StartingHands
    && (s.roundComplete <==> s.pointsRemaining == 0)
    && (s.roundCompleteAnimation ==> s.roundComplete)
    && (s.showRoundRecap ==> s.roundComplete && !s.roundCompleteAnimation)
    && (s.showShopMenu ==> s.showRoundRecap)
    && (s.gameOver ==> s.pointsRemaining > 0)
  }

  lemma InitialIsGood(sh: Shuffler)
    requires IsShuffler(sh)
    ensures Good(Initial(sh))
  {
  }

  lemma RestartIsGood(s: State, sh: Shuffler)
    requires IsShuffler(sh)
    requires Good(s) && s.gameOver
    ensures Good(RestartGame(s, sh))
  {
  }

  /** Moving cards between the zones of the table keeps the game's cards distinct. */
  lemma TableMoveKeepsDistinct(s: State, t: Table)
    requires CardsDistinct(s)
    requires multiset(Keys(Contents(t))) <= multiset(Keys(Contents(s.table)))
    ensures CardsDistinct(s.(table := t))
  {
    var r := s.(table := t);
    KeysConcat(Contents(t), s.inFlight);
    KeysConcat(Contents(s.table), s.inFlight);
    DistinctOfSubBag(Keys(AllCards(r)), Keys(AllCards(s)));
  }

  lemma ToggleIsGood(s: State, i: int)
    requires Good(s)
    ensures Good(Toggle(s, i))
  {
    var t := Toggle(s, i).table;
    KeysConcat(t.deck + t.hand, t.discard);
    KeysConcat(t.deck, t.hand);
    KeysConcat(s.table.deck + s.table.hand, s.table.discard);
    KeysConcat(s.table.deck, s.table.hand);
    TableMoveKeepsDistinct(s, t);
  }

  lemma DiscardIsGood(s: State, sh: Shuffler)
    requires IsShuffler(sh)
    requires Good(s)
    ensures Good(Discard(s, sh))
  {
    if s.discardsRemaining > 0 && SelectedCount(s.table.hand) > 0 {
      TableMoveKeepsDistinct(s, DiscardCards(s.table, s.maxHandSize, sh));
    }
  }

  /** Playing moves the selection from the hand to the played cards; the
      previously played cards are gone. */
  lemma PlayedCardsMove(s: State, now: int)
    requires CardsDistinct(s)
    ensures CardsDistinct(PlayHand(s, now).1)
  {
    var r := PlayHand(s, now).1;
    if PlayHand(s, now).0 {
      var h := s.table.hand;
      SelectionSplits(h);
      var a := AllCards(r);
      var b := AllCards(s);
      assert a == s.table.deck + Unselected(h) + s.table.discard + Selected(h);
      assert b == s.table.deck + h + s.table.discard + s.inFlight;
      forall x ensures multiset(a)[x] <= multiset(b)[x] {
        assert multiset(h)[x] == multiset(Selected(h))[x] + multiset(Unselected(h))[x];
      }
      DistinctKeysOfSubBag(a, b);
    }
  }

  lemma PlayIsGood(s: State, now: int)
    requires Good(s) && !s.gameOver
    ensures Good(PlayHand(s, now).1)
  {
    PlayedCardsMove(s, now);
    PlayKeepsConsistent(s, now);
  }

  lemma PlayKeepsConsistent(s: State, now: int)
    requires Consistent(s) && !s.gameOver
    ensures Consistent(PlayHand(s, now).1)
  {
    var played := Selected(s.table.hand);
    if |played| > 0 {
      var scored := CalculateHandScore(played);
      ScoredKeepsConsistent(s, now, scored.0, scored.1);
    }
  }

  lemma ScoredKeepsConsistent(s: State, now: int, handType: Option<HandType>, points: int)
    requires Consistent(s) && !s.gameOver && points >= 0
    ensures Consistent(Scored(s, now, handType, points))
  {
    var r := Scored(s, now, handType, points);
    assert r.score >= 0;
    assert r.pointsRemaining == Max0(r.basePointsRequired - r.score);
  }

  lemma BuyIsGood(s: State, item: ShopItem)
    requires Good(s)
    ensures Good(Buy(s, item))
  {
    assert AllCards(Buy(s, item)) == AllCards(s);
  }

  lemma ScoringTimerIsGood(s: State, now: int, sh: Shuffler)
    requires IsShuffler(sh)
    requires Good(s)
    ensures Good(ScoringTimer(s, now, sh))
  {
    if s.scoringAnimation && now - s.animationStart >= ScoringMillis {
      var t := DealHand(s.table, s.maxHandSize, [], sh);
      DealConserves(s.table, s.maxHandSize, [], sh);
      KeysSubBag(Contents(t), Contents(s.table));
      TableMoveKeepsDistinct(s, t);
      var s1 := ScoringTimer(s, now, sh);
      assert s1 == s.(table := t).(scoringAnimation := false);
      assert AllCards(s1) == AllCards(s.(table := t));
    }
  }

  lemma RoundTimerIsGood(s: State, now: int)
    requires Good(s)
    ensures Good(RoundTimer(s, now))
  {
    assert AllCards(RoundTimer(s, now)) == AllCards(s);
  }

  lemma TickIsGood(s: State, now: int, sh: Shuffler)
    requires IsShuffler(sh)
    requires Good(s)
    ensures Good(Tick(s, now, sh))
  {
    ScoringTimerIsGood(s, now, sh);
    RoundTimerIsGood(ScoringTimer(s, now, sh), now);
  }

  lemma NextRoundIsGood(s: State, sh: Shuffler)
    requires IsShuffler(sh)
    requires Good(s) && s.showShopMenu
    ensures Good(StartNextRound(s, sh))
  {
    AdvancedIsConsistent(s, StartNextRound(s, sh));
  }

  /** A round advanced from the shop keeps the counters and flags in agreement. */
  lemma AdvancedIsConsistent(s: State, r: State)
    requires Consistent(s) && s.showShopMenu
    requires RoundAdvanced(s, r)
    ensures Consistent(r)
  {
  }

  /** Every event keeps the invariant. */
  lemma StepIsGood(s: State, e: Intent, now: int, sh: Shuffler)
    requires IsShuffler(sh)
    requires Good(s)
    ensures Good(Step(s, e, now, sh))
  {
    if s.gameOver {
      if e == ClickRestart {
        RestartIsGood(s, sh);
      }
    } else {
      match e
      case ClickCard(i) => ToggleIsGood(s, i);
      case ClickPlay => PlayIsGood(s, now);
      case ClickDiscard => DiscardIsGood(s, sh);
      case ClickShop =>
      case ClickBuy(item) => if s.showShopMenu { BuyIsGood(s, item); }
      case ClickContinue => if s.showShopMenu { NextRoundIsGood(s, sh); }
      case ClickRestart =>
      case Frame => TickIsGood(s, now, sh);
    }
  }

  // ---------------------------------------------------------------------------
  // Properties of the rules

  /** A play that brings the points remaining to zero never ends the game. */
  lemma WinNeverEndsGame(s: State, now: int)
    requires Good(s) && !s.gameOver
    requires PlayHand(s, now).0 && PlayHand(s, now).1.pointsRemaining == 0
    ensures !PlayHand(s, now).1.gameOver
    ensures PlayHand(s, now).1.roundComplete
  {
  }

  /** A play that leaves points to score with the last hand ends the game
      exactly when the score is below the points still remaining: the game
      compares the two counters, not the score with the target. */
  lemma LastHandOutcome(s: State, now: int)
    requires Good(s) && !s.gameOver && s.handsRemaining == 1
    requires PlayHand(s, now).0 && PlayHand(s, now).1.pointsRemaining > 0
    ensures PlayHand(s, now).1.gameOver <==>
              PlayHand(s, now).1.score < PlayHand(s, now).1.pointsRemaining
  {
  }

  /** Nothing stops a play when no hand is left: the counter goes negative
      and the game goes on. A round won that way pays no award, or a negative one. */
  lemma PlayWithNoHandsLeft(s: State, now: int, sh: Shuffler)
    requires IsShuffler(sh)
    requires Good(s) && !s.gameOver && s.handsRemaining <= 0
    requires SelectedCount(s.table.hand) > 0
    ensures Step(s, ClickPlay, now, sh).handsRemaining == s.handsRemaining - 1
    ensures !Step(s, ClickPlay, now, sh).gameOver
    ensures Step(s, ClickPlay, now, sh).money <= s.money
  {
  }

  /** The recap animation starts only when a play completes the round. */
  lemma RecapStartsOnlyOnCompletion(s: State, e: Intent, now: int, sh: Shuffler)
    requires IsShuffler(sh)
    requires Good(s) && !s.roundCompleteAnimation
    requires Step(s, e, now, sh).roundCompleteAnimation
    ensures e == ClickPlay && !s.roundComplete && Step(s, e, now, sh).roundComplete
  {
  }

  /** Interest is paid once per round: once the recap animation is over, no
      event short of the next round or a restart pays interest again, reopens
      the round or restarts the animation. */
  lemma NoSecondInterest(s: State, e: Intent, now: int, sh: Shuffler)
    requires IsShuffler(sh)
    requires Good(s) && s.roundComplete && !s.roundCompleteAnimation
    requires e != ClickContinue && e != ClickRestart
    ensures Step(s, e, now, sh).roundComplete
    ensures !Step(s, e, now, sh).roundCompleteAnimation
    ensures Step(s, e, now, sh).interestEarnedThisRound == s.interestEarnedThisRound
  {
  }

  /** Every change of the money has one of four causes: the award of a play
      that completes the round, the interest when the recap appears, a
      purchase, or the restart. */
  lemma MoneyChanges(s: State, e: Intent, now: int, sh: Shuffler)
    requires IsShuffler(sh)
    requires Good(s)
    ensures var r := Step(s, e, now, sh);
            || r.money == s.money
            || (e == ClickPlay && !s.roundComplete && r.roundComplete && r.money == s.money + Award(s.handsRemaining))
            || (e == Frame && s.roundCompleteAnimation && r.showRoundRecap && r.money == s.money + Interest(s.money))
            || (e.ClickBuy? && s.showShopMenu && r.money == s.money - Cost(e.item))
            || (e == ClickRestart && s.gameOver && r.money == 0)
  {
  }

  /** The first targets are 100, 150, 225 and 337 points, and the target
      grows with every round. */
  lemma TargetGrowth(base: int)
    requires base >= 2
    ensures ScaleTarget(base) > base
    ensures ScaleTarget(StartingTarget) == 150
    ensures ScaleTarget(ScaleTarget(StartingTarget)) == 225
    ensures ScaleTarget(ScaleTarget(ScaleTarget(StartingTarget))) == 337
  {
  }

  /** Three rounds bring the pot back to where it was and advance the level
      by one; nine rounds bring both back. */
  lemma PotLevelCycle(pot: int, level: int)
    requires 0 <= pot < PotCount && 0 <= level < LevelCount
    ensures var a := NextPotLevel(pot, level);
            var b := NextPotLevel(a.0, a.1);
            var c := NextPotLevel(b.0, b.1);
            c == (pot, (level + 1) % LevelCount)
  {
  }

  // ---------------------------------------------------------------------------
  // The next round, as written and as intended

  /** As written, when the new deck keeps at least five cards the next round
      deals from the end of the new deck onto the old hand. */
  lemma AsWrittenDeal(s: State, sh: Shuffler) returns (n: nat)
    requires IsShuffler(sh)
    requires s.basePointsRequired >= 0
    requires s.maxHandSize - |s.table.hand| <= 30
    ensures n <= 30 && |sh(FullDeck())| == 35
    ensures var d := sh(FullDeck());
            StartNextRoundAsWritten(s, sh).table == Table(d[..|d| - n], s.table.hand + Reversed(d[|d| - n..]), s.table.discard)
    ensures StartNextRoundAsWritten(s, sh).inFlight == []
  {
    ShuffledDeckSize(sh);
    var t := Table(sh(FullDeck()), s.table.hand, s.table.discard);
    assert Kept(t, []) == s.table.hand;
    n := Dealt(t, s.maxHandSize, []);
  }

  /** Two cards with the same suit and rank at different places. */
  lemma RepeatedKey(a: seq<Card>, p: int, q: int)
    requires 0 <= p < q < |a| && Key(a[p]) == Key(a[q])
    ensures !Distinct(Keys(a))
  {
    assert Keys(a)[p] == Keys(a)[q];
  }

  /** Keeping a hand while dealing onto it from a deck that holds a copy of
      one of its cards puts that card on the table twice: the copy is either
      still in the deck or now in the hand. */
  lemma DealtCopyRepeats(d: seq<Card>, hand: seq<Card>, discard: seq<Card>, n: nat, j: nat)
    requires n <= |d| && j < |d| && |hand| > 0 && Key(d[j]) == Key(hand[0])
    ensures !Distinct(Keys(d[..|d| - n] + (hand + Reversed(d[|d| - n..])) + discard))
  {
    var m := |d| - n;
    var rh := hand + Reversed(d[m..]);
    var a := d[..m] + rh + discard;
    assert a[m] == rh[0] == hand[0];
    if j < m {
      assert a[j] == d[..m][j] == d[j];
      RepeatedKey(a, j, m);
    } else {
      var drawn := d[m..];
      var k := j - m;
      var i := |hand| + (n - 1 - k);
      assert Reversed(drawn)[n - 1 - k] == drawn[k] == d[j] by {
        ReversedAt(drawn);
      }
      assert rh[i] == Reversed(drawn)[n - 1 - k];
      assert a[m + i] == rh[i];
      RepeatedKey(a, m, m + i);
    }
  }

  /** A shuffled full deck holds a copy of every card. */
  lemma ShuffledCopy(sh: Shuffler, c: Card) returns (j: nat)
    requires IsShuffler(sh)
    ensures j < |sh(FullDeck())| && Key(sh(FullDeck())[j]) == Key(c)
  {
    var d := sh(FullDeck());
    assert Card(c.suit, c.rank, false) in multiset(d) by {
      FullDeckComplete();
    }
    j :| 0 <= j < |d| && d[j] == Card(c.suit, c.rank, false);
  }

  /** As written, the next round holds some card twice whenever the old hand
      is not empty and the new deck keeps at least five cards: the old hand's
      first card is still in the hand and also in the newly built deck, or has
      just been dealt from it. */
  lemma NextRoundAsWrittenRepeatsCards(s: State, sh: Shuffler)
    requires IsShuffler(sh)
    requires s.basePointsRequired >= 0
    requires |s.table.hand| > 0 && s.maxHandSize - |s.table.hand| <= 30
    ensures !CardsDistinct(StartNextRoundAsWritten(s, sh))
  {
    var n := AsWrittenDeal(s, sh);
    DealtOntoKeptHand(StartNextRoundAsWritten(s, sh), sh, s.table.hand, s.table.discard, n);
  }

  /** A state whose table is a new full deck dealt onto a kept non-empty hand
      holds a card twice. */
  lemma DealtOntoKeptHand(r: State, sh: Shuffler, hand: seq<Card>, discard: seq<Card>, n: nat)
    requires IsShuffler(sh)
    requires n <= |sh(FullDeck())| && |hand| > 0
    requires var d := sh(FullDeck());
             r.table == Table(d[..|d| - n], hand + Reversed(d[|d| - n..]), discard)
    requires r.inFlight == []
    ensures !CardsDistinct(r)
  {
    var d := sh(FullDeck());
    ShuffledDealRepeats(sh, hand, discard, n);
    TableRepeats(r, d[..|d| - n], hand + Reversed(d[|d| - n..]), discard);
  }

  /** Keeping a non-empty hand while dealing onto it from a new full deck
      repeats a card. */
  lemma ShuffledDealRepeats(sh: Shuffler, hand: seq<Card>, discard: seq<Card>, n: nat)
    requires IsShuffler(sh)
    requires n <= |sh(FullDeck())| && |hand| > 0
    ensures var d := sh(FullDeck());
            !Distinct(Keys(d[..|d| - n] + (hand + Reversed(d[|d| - n..])) + discard))
  {
    var j := ShuffledCopy(sh, hand[0]);
    DealtCopyRepeats(sh(FullDeck()), hand, discard, n, j);
  }

  /** A state with no played cards whose table repeats a card holds it twice. */
  lemma TableRepeats(r: State, deck: seq<Card>, hand: seq<Card>, discard: seq<Card>)
    requires r.table == Table(deck, hand, discard) && r.inFlight == []
    requires !Distinct(Keys(deck + hand + discard))
    ensures !CardsDistinct(r)
  {
    var a := deck + hand + discard;
    assert AllCards(r) == a by {
      assert Contents(r.table) == a;
      assert a + [] == a;
    }
  }

  /** The intended next round keeps every card once (its contract) and differs
      from the written one only in the cards: the counters agree. */
  lemma NextRoundVersionsAgreeOnCounters(s: State, sh: Shuffler)
    requires IsShuffler(sh)
    requires s.basePointsRequired >= 0
    ensures StartNextRound(s, sh).(table := s.table) == StartNextRoundAsWritten(s, sh).(table := s.table)
  {
  }
}
