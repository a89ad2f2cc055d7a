# Short Deck — rules engine and round state machine in Dafny

Short Deck is a single-player poker-scoring card game. It uses a 35-card deck: ranks eight to ace in the four usual suits plus a fifth "star" suit. The player holds a hand of eight cards and selects up to five of them. The player then plays the selection for points or discards it for replacements. Each round sets a points target. The player has five hands and a few discards to reach it. A won round pays money for the hands left and then twenty percent interest. Between rounds a shop sells one more discard per round or one more card in hand. The game is lost when a play uses up the last hand while the score is still below the points remaining. A play that leaves the score at or above the points remaining does not end the game, and play can then go on with the hand count below zero.

The Dafny project models that logic as pure functions on immutable data:

- `cards.dfy` (module `Cards`): suits, ranks, cards with their selection flag, hand categories with their order numbers, the 35-card deck, and card labels.
- `evaluator.dfy` (module `HandEvaluator`): the hand classifier as the program computes it. That is the rank tally, the counts sorted from largest to smallest, the sorted list of ranks present, and the first-match-wins chain. It sits next to a reference classification stated in poker terms ("five consecutive ranks", "the largest group of one rank"), and the two are proved to agree on every input.
- `scoring.dfy` (module `Scoring`): base points per category plus a bonus of `max(0, rank - 10)` per card.
- `zones.dfy` (module `Zones`): deck, hand and discard pile as sequences. It covers selection toggling, discarding listed cards, dealing from the end of the deck, and the reshuffle of the discard pile.
- `economy.dfy` (module `Economy`): money in whole cents, the award, the interest rounding, and the shop prices.
- `game.dfy` (module `Game`): the game state record and every transition. The transitions are play, discard, toggle, buy, open shop, continue, restart, and the two animation timers. It also holds the properties of the rules and the invariant every event of this machine keeps. In this machine the continue button starts the next round from a fresh table. The program's own next round, which keeps the old hand, is modelled beside it and shown to hold cards twice (see "## Findings").

Money is kept in integer cents: 100 cents make one currency unit. Time is a parameter in whole milliseconds. The shuffle is a function parameter `sh`, constrained only to return a rearrangement of its input (`Zones.IsShuffler`). Mouse clicks become discrete intents (`Game.Intent`): a card index, play, discard, open shop, buy an item, continue, restart, or one frame of the event loop.

## Model

| member | source | states |
|---|---|---|
| Cards.OrderInjective | main.py:78-89 | Each hand category carries its own order number: two categories share a number only if they are the same category. |
| Cards.FullDeckComplete | main.py:279-281 | The built deck has 35 cards, none selected; every (suit, rank) pair of the five suits and seven ranks is in it, and no pair is there twice. |
| Cards.CardText | main.py:69-71 | A card's label is two or three characters and ends with the suit symbol; it has three characters exactly for the ten. |
| Cards.CardTextRoundTrip | main.py:69-71 | The label identifies the card: reading a label back gives the card's suit and rank. |
| Cards.DistinctKeysOfSubBag | main.py:283-312 | Moving cards around and dropping some never makes two copies of one card, because the zones only move cards. |
| HandEvaluator.SortDescending | main.py:101 | The sorted counts are in descending order and hold the same counts as the tally, with multiplicity. |
| HandEvaluator.PresentFacts | main.py:103 | The list of ranks present is strictly ascending and holds exactly the ranks some card has. |
| HandEvaluator.TallyMeaning | main.py:95-101 | The tally has one entry per rank held; for each size k it has as many k-entries as there are ranks held by exactly k cards; its largest entry is the largest group of one rank. |
| HandEvaluator.SortedTallyHead | main.py:101 | For a non-empty selection, the first sorted count is the size of the largest group of one rank. |
| HandEvaluator.StraightMeaning | main.py:110-117 | The program's straight test holds exactly when the ranks are five consecutive values and no other; its ten-to-ace test holds exactly when they are ten to ace. |
| HandEvaluator.Classify | main.py:107-156 | Whatever branch of the chain fires, the number returned is the order number of the category returned. |
| HandEvaluator.EvaluateHand | main.py:93-156 | The integer the classifier returns always equals the order number paired with its category. |
| HandEvaluator.EvaluateMatchesReference | main.py:93-156 | The classifier's category equals the reference category for every selection. The reference is the first-match-wins rule stated in poker terms: a five-rank run in one suit, then five of one rank, four of one rank, a three and a pair, five cards in one suit, a five-rank run, three of one rank, two pairs, a pair, and otherwise high card. |
| HandEvaluator.EmptyIsHighCard | main.py:106-108 | No cards classify as high card with order number 0. |
| HandEvaluator.StraightsAreRuns | main.py:110-141 | A straight of any kind is reported only for five consecutive ranks. Five consecutive ranks in one suit are always a straight flush or a royal flush. Royal flush holds exactly for ten to ace in one suit. |
| HandEvaluator.FlushNeedsFive | main.py:135-137 | A plain flush is reported only for exactly five cards of one suit. |
| HandEvaluator.FiveOfOneRank | main.py:123-125 | Five cards of one rank, possible thanks to the fifth suit, classify as five of a kind with order number 10. |
| Scoring.BasePoints | main.py:334-346 | Every category's base points lie between 5 and 150. |
| Scoring.FaceBonusTotal | main.py:348-350 | The rank bonus is at most four points per card, and nothing when no card is above ten. |
| Scoring.CalculateHandScore | main.py:326-352 | No cards score (none, 0). Otherwise the category is the reference category of the cards, and the points are its base points plus the rank bonus. One to five cards score between 5 and 170. |
| Scoring.AddFaceBonuses | main.py:348-350 | The program's loop over the cards adds exactly the total rank bonus to the base points. |
| Scoring.ScoreHand | main.py:326-352 | The program's step-by-step computation (classify, look up the base, add the bonuses card by card) gives no category and no points for no cards. Otherwise it gives the category the poker rules name, and that category's base points plus the rank bonus. One to five cards score between 5 and 170. |
| Scoring.LowStraightFlushScores | main.py:326-352 | Eight to queen in one suit is a straight flush worth 103. |
| Scoring.AcesFullOfKingsScores | main.py:326-352 | Three aces and two kings are a full house worth 58. |
| Economy.Award | main.py:369-371 | The award is a whole number of units: positive when hands are left, zero or negative otherwise. |
| Economy.Interest | main.py:654 | The interest is within two fifths of a cent of one fifth of the money. |
| Economy.InterestIsNearest | main.py:654 | Every other whole number of cents lies strictly further from a fifth of the money, so the interest is the rounding to the nearest cent, with no tie. |
| Economy.InterestSign | main.py:654 | Interest keeps the sign of the balance, and under three cents earns nothing. |
| Economy.Cost | main.py:900-903 | Each price is a whole multiple of five units between five and fifteen. |
| Zones.SelectionSplits | main.py:424-428 | Splitting a hand into its selected and unselected cards loses no card and invents none. |
| Zones.ToggleSelection | main.py:314-324 | An index out of range, or selecting a sixth card, changes nothing. Otherwise exactly that card's flag flips and every other card is unchanged. The hand keeps its cards, and at most five selected stay at most five. |
| Zones.ClearSelection | main.py:975-976 | Every flag is cleared and the cards are otherwise kept, in order. |
| Zones.RemoveFirst | main.py:294-295 | Removing a card takes out its first occurrence only, keeping every other card in order (one copy fewer when present); an absent card changes nothing. |
| Zones.DiscardListed | main.py:291-296 | Discarding listed cards only moves cards from the hand to the pile, and the old pile stays at the front of the new pile. |
| Zones.DiscardListedMoves | main.py:291-296 | For every card, the pile gains as many copies as are both held and listed, and the hand keeps the rest; cards listed but not held move nothing. |
| Zones.DiscardingSelection | main.py:291-296 | Discarding the hand's selection keeps the unselected cards in hand, in order, and appends the selected cards to the pile, in hand order. |
| Zones.Draw | main.py:303-306 | Popping k cards one at a time shortens the deck by its last k cards and appends them to the hand, last card first. |
| Zones.DealCount | main.py:303 | A deal hands out enough cards to fill the hand but never more than the deck holds, and none when the hand is already full. |
| Zones.DealHand | main.py:283-312 | The hand keeps what survived the discard and gains the cards popped from the deck's end. If fewer than five cards are left, the deck becomes a rearrangement of the discard pile and the pile empties. Otherwise the deck is the rest and the pile keeps the discards. |
| Zones.DealConserves | main.py:283-312 | A deal only moves cards: the table afterwards holds a sub-multiset of the cards before. The reshuffle may drop the deck's leftovers. |
| Zones.DealRespectsLimit | main.py:303-306 | A deal never pushes the hand past its limit. It fills the hand to the limit when the deck holds enough cards, and leaves an overfull hand alone. |
| Zones.DealKeepsDistinct | main.py:283-312 | A table that held each card once still does after any deal. |
| Game.FreshTable | main.py:279-312 | Building, shuffling and dealing from a new deck gives a table that holds each card at most once. |
| Game.FreshTableSizes | main.py:279-312 | A fresh deal of a hand of n cards (n up to 30) leaves n cards in hand, 35 - n in the deck and an empty pile. |
| Game.FreshTableHoldsFullDeck | main.py:279-312 | For hands of up to 30 cards, a fresh deal leaves deck and hand together holding exactly the 35 cards of the full deck, each once. |
| Game.FreshHandUnselected | main.py:279-312 | A fresh hand holds no selected card. |
| Game.Initial | main.py:167-228 | The starting state holds each card once, has a target of 100 points still to score, and is neither over, complete, nor in the recap or shop. |
| Game.InitialTable | main.py:228-229 | The starting table holds eight unselected cards in hand and the other twenty-seven in the deck: together exactly the full deck. The pile is empty and nothing has been played. |
| Game.RestartGame | main.py:1241-1275 | The restart gives the starting state again, money and upgrades included, except for the round-complete animation flag and its start time, which it leaves alone. |
| Game.PlayHand | main.py:354-393 | With nothing selected nothing changes. Otherwise the selection is scored. The score grows and the points remaining shrink by its points, never below zero. One hand is used. The round completes when the points remaining reach zero outside the animation, paying the award for the hands counted before this play. The game ends when no hand is left and the score is below the points remaining. The selected cards leave the hand for the played cards, and the deck and pile are unchanged. The scoring animation starts now. A completing play also starts the round-complete animation now and records the award as the round's earnings; otherwise those stay as they were. No other field changes. |
| Game.PlayedCardsMove | main.py:391-428 | After a play the game still holds no card twice: the selection moves from the hand to the played cards, and the previously played cards are gone. |
| Game.Toggle | main.py:947-955 | A card click changes only the hand, by toggling that card. |
| Game.DiscardCards | main.py:972-976 | After a discard no card in hand is selected, and the table holds a sub-multiset of the cards it held. |
| Game.DiscardMovesSelection | main.py:963-977 | Without a reshuffle, a discard puts exactly the selected cards, in hand order, on the pile. The unselected cards stay at the front of the hand and the replacements come from the end of the deck, all unselected. |
| Game.Discard | main.py:963-977 | With no discard left or nothing selected nothing changes. Otherwise one discard is used, the cards move as above, and nothing else changes. |
| Game.Buy | main.py:914-928 | Short of the price nothing changes. Otherwise the price is paid, the money stays non-negative, and the item adds one discard per round or one card in hand (bonus points adds nothing). Nothing else changes. |
| Game.ScoringTimer | main.py:661-684 | Once the scoring animation has run 3500 ms it ends and the hand is refilled by a plain deal. Before that nothing changes, and only the table and the flag ever change. |
| Game.RoundTimer | main.py:627-659 | Once the round-complete animation has run 1500 ms it ends, the recap shows, and the interest on the money is recorded and added. Before that nothing changes. |
| Game.Tick | main.py:1102-1105 | One frame runs both timers, the scoring one first. Each fires on its own condition, so both can fire in the same frame. A due scoring animation ends and refills the hand by a plain deal. A due round-complete animation ends, shows the recap, and pays interest on the money as it stood. Nothing else changes. |
| Game.ScaleTarget | main.py:1077 | The next target is one and a half times the old, truncated: twice the new target lies within one point below three times the old. |
| Game.NextPotLevel | main.py:1094-1097 | The pot index advances cyclically among three. The level index stays in range, and changes only when the pot wraps to the first. |
| Game.TargetGrowth | main.py:1077 | The targets run 100, 150, 225, 337, and every target above one point grows. |
| Game.PotLevelCycle | main.py:1094-1097 | Three rounds bring the pot back and advance the level by one. |
| Game.StartNextRound | main.py:1069-1100 | The next round, with the evident intent: no card twice, and a fresh hand with no card selected. For hand limits up to 30, the hand holds exactly the limit, the deck holds the other cards, the pile is empty, and deck and hand together are the full deck. It increments the round and clears the score, the last hand's points and type, and the round's earnings. It restores five hands and every discard, and sets the points remaining to the grown target. It closes the recap, shop and scoring animation, drops the played cards, and advances the pot and level. Money, upgrades, the game-over flag and the round-complete animation are kept. |
| Game.StartNextRoundAsWritten | main.py:1069-1100 | The next round as written makes the same counter changes, field by field, as the intended one: round, score, hands, discards, target, flags, played cards, pot and level. The old hand stays at the front of the new hand. |
| Game.AsWrittenTable | main.py:1099-1100 | As written, the new deck is a rearrangement of the full 35-card deck. The old hand is kept and the new deck's last cards are drawn onto it, last card first. The old discard pile stays, unless the new deck falls below five cards; then the deck becomes a shuffle of that pile and the pile empties. |
| Game.NextRoundVersionsAgreeOnCounters | main.py:1069-1100 | The written and the intended next round differ only in the cards. |
| Game.NextRoundAsWrittenRepeatsCards | main.py:1069-1100 | As written, whenever the old hand is not empty (and the new deck keeps five cards), some card is held twice after the next round starts. |
| Game.Step | main.py:886-977 | Once the game is over only the restart acts and frames stop. Buy and continue need the shop, and opening the shop needs the recap. Restart does nothing in a running game. |
| Game.InitialIsGood | main.py:167-209 | The starting state satisfies the invariant: no card twice, and the counters and flags agree. |
| Game.StepIsGood | main.py:886-977 | Every event keeps the invariant: no card twice; the points remaining are the target less the score, never below zero; the round is complete exactly when nothing remains; the animation, recap and shop flags nest; a lost game still has points remaining. |
| Game.WinNeverEndsGame | main.py:359-385 | A play that brings the points remaining to zero completes the round and never ends the game. |
| Game.LastHandOutcome | main.py:376-385 | On the last hand, a play that leaves points to score ends the game exactly when the score is below the points remaining. |
| Game.PlayWithNoHandsLeft | main.py:354-393 | Nothing stops a play when no hand is left: the counter drops below zero, the game goes on, and no money is gained. |
| Game.RecapStartsOnlyOnCompletion | main.py:368-373 | The round-complete animation starts only from a play that completes the round. |
| Game.NoSecondInterest | main.py:648-655 | Once the animation is over, no event short of the next round or a restart reopens the round, restarts the animation, or pays interest again. |
| Game.MoneyChanges | main.py:354-393 | Money changes only by the award of a completing play, the interest when the recap appears, a purchase, or the restart to zero. |

## Left out

- Drawing, the spiral background, fonts, buttons, the recap, shop and game-over screens, and the flying components: rendering with no logical content.
- Sound loading and playback: output only.
- Mouse hit-testing: clicks are modelled as intents that name the control hit. Each intent acts in exactly the states where the program's branch for that control is reachable.
- The shuffle's random source: `sh` may be any rearrangement.
- Floating-point animation values (eased progress, fade alpha, component velocities): only the 1500 ms and 3500 ms thresholds are kept. Time is whole milliseconds, where the program divides by 1000 and compares seconds.
- Floating-point money: money is whole cents, and each rounding to cents in the program becomes exact integer arithmetic.
- The legacy `discard_all` branch of `deal_hand` (main.py:297-300): no caller passes it.
- The pot and level display names: only the indices are kept.
- The event loop, `sys.exit` and the quit key.
- Bonus Points: buying it only takes the money, as in the program.
- Discarded cards keep their selection flag on the pile, as in the program. After a reshuffle they can come back selected with the post-play deal.
- Played cards never reach the discard pile, and a new play drops the previous played cards. Together with the reshuffle dropping the deck's leftovers, the game's cards shrink over time. The model keeps this and proves only that no card is held twice.
- Game.Step: the continue button runs the corrected next round (`Game.StartNextRound`), not the program's `start_next_round` (main.py:935), which keeps the old hand and pile; the program's version is `Game.StartNextRoundAsWritten`.
- Game.StepIsGood: "no card twice" holds for the machine with the corrected next round. With the program's `start_next_round`, a continue with cards in hand breaks it, as `Game.NextRoundAsWrittenRepeatsCards` proves.
- Game.Step: the program does not block card clicks, play or discard during the scoring or round-complete animation, and the model does not either.
- Game.PlayHand: hands remaining may go below zero. A round won with no hand left pays a zero or negative award, as the program computes it.
- Game.RestartGame: the program's restart does not reset the round-complete animation flag or its start time, and neither does the model.
- Game.FreshTableSizes: stated only for hands of at most 30 cards, where no reshuffle happens during the first deal.
- Game.FreshTableHoldsFullDeck: stated only for hands of at most 30 cards. A larger limit leaves fewer than five cards in the deck, and the reshuffle replaces the deck with the empty pile, so the table then holds only the hand.
- Game.StartNextRound: the sizes and the full-deck clause are stated only for hand limits of at most 30, for the same reason. Beyond that the contract promises only an unselected hand and no card twice.
- Game.NextRoundAsWrittenRepeatsCards: stated only when the deal keeps at least five cards in the new deck (a hand short by at most 30 cards); beyond that the reshuffle takes over.
- The three-aces-and-two-kings hand scores 58 by the program's table and bonus (40 + 3·4 + 2·3); the model follows the program.

## Findings

| source | as written | input that shows it | evidently intended | confidence | as-written member | corrected member |
|---|---|---|---|---|---|---|
| main.py:1069-1100 | `start_next_round` builds a new full deck and deals onto the old hand, but keeps that hand and the discard pile. | Any round that ends with cards left in hand. For example, after a round won with eight cards in hand, each of those cards is also in the new 35-card deck. | Start the round from a fresh table, as `restart_game` does: empty hand and pile, new shuffled deck, new hand. | medium (not executed) | Game.StartNextRoundAsWritten, shown by Game.NextRoundAsWrittenRepeatsCards | Game.StartNextRound, which `Game.Step` runs on continue |
