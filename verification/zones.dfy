/** The deck, the hand and the discard pile, and the moves between them:
    dealing from the end of the deck, discarding listed cards, reshuffling the
    discard pile into a new deck, and toggling a card's selection flag. */
module Zones {
  import opened Cards

  datatype Table = Table(deck: seq<Card>, hand: seq<Card>, discard: seq<Card>)

  /** All cards on the table, deck first. */
  function Contents(t: Table): seq<Card> {
    t.deck + t.hand + t.discard
  }

  /** A shuffle is some reordering; which one is left to the environment. */
  type Shuffler = seq<Card> -> seq<Card>

  ghost predicate IsShuffler(sh: Shuffler) {
    forall xs :: multiset(sh(xs)) == multiset(xs)
  }

  // ---------------------------------------------------------------------------
  // Selection

  /** The selected cards of a hand, in hand order. */
  function Selected(hand: seq<Card>): (r: seq<Card>)
    ensures forall i | 0 <= i < |r| :: r[i].selected
  {
    if |hand| == 0 then []
    else (if hand[0].selected then [hand[0]] else []) + Selected(hand[1..])
  }

  /** The cards of a hand that are not selected, in hand order. */
  function Unselected(hand: seq<Card>): (r: seq<Card>)
    ensures forall i | 0 <= i < |r| :: !r[i].selected
  {
    if |hand| == 0 then []
    else (if hand[0].selected then [] else [hand[0]]) + Unselected(hand[1..])
  }

  function SelectedCount(hand: seq<Card>): nat {
    |Selected(hand)|
  }

  /** Splitting a hand by the flag loses no card and invents none. */
  lemma {:induction false} SelectionSplits(hand: seq<Card>)
    ensures multiset(Selected(hand)) + multiset(Unselected(hand)) == multiset(hand)
  {
    if |hand| > 0 {
      var h := hand[0];
      var rest := hand[1..];
      SelectionSplits(rest);
      var sel: seq<Card> := if h.selected then [h] else [];
      var unsel: seq<Card> := if h.selected then [] else [h];
      assert Selected(hand) == sel + Selected(rest);
      assert Unselected(hand) == unsel + Unselected(rest);
      assert multiset(sel) + multiset(unsel) == multiset{h};
      assert hand == [h] + rest;
      assert multiset(hand) == multiset{h} + multiset(rest);
      assert multiset(Selected(hand)) == multiset(sel) + multiset(Selected(rest));
      assert multiset(Unselected(hand)) == multiset(unsel) + multiset(Unselected(rest));
    }
  }

  lemma {:induction false} SelectedConcat(a: seq<Card>, b: seq<Card>)
    ensures Selected(a + b) == Selected(a) + Selected(b)
  {
    if |a| == 0 {
      assert a + b == b;
    } else {
      var h := a[0];
      var head := if h.selected then [h] else [];
      SelectedConcat(a[1..], b);
      assert (a + b)[0] == h;
      assert (a + b)[1..] == a[1..] + b;
      assert Selected(a + b) == head + Selected(a[1..] + b);
      assert Selected(a) == head + Selected(a[1..]);
      assert head + (Selected(a[1..]) + Selected(b)) == (head + Selected(a[1..])) + Selected(b);
    }
  }

  /** Replacing one card changes the number of selected cards by the change of
      that card's flag. */
  lemma SelectedCountUpdate(hand: seq<Card>, i: int, c: Card)
    requires 0 <= i < |hand|
    ensures SelectedCount(hand[i := c]) + (if hand[i].selected then 1 else 0)
         == SelectedCount(hand) + (if c.selected then 1 else 0)
  {
    assert hand == hand[..i] + [hand[i]] + hand[i + 1..];
    assert hand[i := c] == hand[..i] + [c] + hand[i + 1..];
    SelectedConcat(hand[..i] + [hand[i]], hand[i + 1..]);
    SelectedConcat(hand[..i], [hand[i]]);
    SelectedConcat(hand[..i] + [c], hand[i + 1..]);
    SelectedConcat(hand[..i], [c]);
    assert Selected([c]) == if c.selected then [c] else [];
    assert Selected([hand[i]]) == if hand[i].selected then [hand[i]] else [];
  }

  /** Clicking card i: out of range, or selecting a sixth card, changes
      nothing; otherwise exactly that card's flag flips. */
  function ToggleSelection(hand: seq<Card>, i: int): (r: seq<Card>)
    ensures |r| == |hand| && Keys(r) == Keys(hand)
    ensures forall j | 0 <= j < |hand| && j != i :: r[j] == hand[j]
    ensures !(0 <= i < |hand|) ==> r == hand
    ensures 0 <= i < |hand| && !hand[i].selected && SelectedCount(hand) >= 5 ==> r == hand
    ensures 0 <= i < |hand| && (hand[i].selected || SelectedCount(hand) < 5) ==>
              r[i].selected == !hand[i].selected
    ensures SelectedCount(hand) <= 5 ==> SelectedCount(r) <= 5
  {
    if 0 <= i < |hand| && (hand[i].selected || SelectedCount(hand) < 5) then
      var c := hand[i].(selected := !hand[i].selected);
      SelectedCountUpdate(hand, i, c);
      var r := hand[i := c];
      assert forall j | 0 <= j < |r| :: Keys(r)[j] == Keys(hand)[j];
      r
    else
      hand
  }

  /** Every flag cleared, the cards themselves unchanged. */
  function ClearSelection(hand: seq<Card>): (r: seq<Card>)
    ensures |r| == |hand| && Keys(r) == Keys(hand)
    ensures forall j | 0 <= j < |r| :: !r[j].selected
    ensures SelectedCount(r) == 0
  {
    var r := seq(|hand|, j requires 0 <= j < |hand| => hand[j].(selected := false));
    assert forall j | 0 <= j < |r| :: Keys(r)[j] == Keys(hand)[j];
    NoneSelected(r);
    r
  }

  lemma {:induction false} NoneSelected(hand: seq<Card>)
    requires forall j | 0 <= j < |hand| :: !hand[j].selected
    ensures Selected(hand) == []
  {
    if |hand| > 0 {
      NoneSelected(hand[1..]);
    }
  }

  // ---------------------------------------------------------------------------
  // Discarding listed cards

  /** The position of the first occurrence of c. */
  function IndexOf(xs: seq<Card>, c: Card): (i: nat)
    requires c in xs
    ensures i < |xs| && xs[i] == c && c !in xs[..i]
  {
    if xs[0] == c then 0
    else
      assert xs[1..][..IndexOf(xs[1..], c)] == xs[1..IndexOf(xs[1..], c) + 1];
      IndexOf(xs[1..], c) + 1
  }

  /** The list without its first occurrence of c (unchanged when c is absent). */
  function RemoveFirst(xs: seq<Card>, c: Card): (r: seq<Card>)
    ensures c !in xs ==> r == xs
    ensures c in xs ==> |r| == |xs| - 1 && multiset(r) + multiset{c} == multiset(xs)
    ensures c in xs ==> exists i | 0 <= i < |xs| && xs[i] == c && c !in xs[..i] :: r == xs[..i] + xs[i + 1..]
  {
    if c in xs then
      var i := IndexOf(xs, c);
      assert xs == xs[..i] + [c] + xs[i + 1..];
      xs[..i] + xs[i + 1..]
    else
      xs
  }

  /** Any first occurrence of c is the one removed. */
  lemma {:induction false} RemoveFirstAt(xs: seq<Card>, c: Card, i: nat)
    requires i < |xs| && xs[i] == c && c !in xs[..i]
    ensures IndexOf(xs, c) == i
    ensures RemoveFirst(xs, c) == xs[..i] + xs[i + 1..]
  {
    if i > 0 {
      assert xs[..i][0] == xs[0];
      assert xs[1..][..i - 1] == xs[1..i];
      assert xs[1..][i - 1] == c;
      assert xs[..i] == [xs[0]] + xs[1..i];
      RemoveFirstAt(xs[1..], c, i - 1);
    }
  }

  /** Removing a card other than the first leaves the first in front. */
  lemma RemoveFirstSkipsHead(h: Card, rest: seq<Card>, c: Card)
    requires h != c
    ensures RemoveFirst([h] + rest, c) == [h] + RemoveFirst(rest, c)
  {
    var xs := [h] + rest;
    if c in rest {
      var i := IndexOf(rest, c);
      assert xs[..i + 1] == [h] + rest[..i];
      assert xs[i + 2..] == rest[i + 1..];
      RemoveFirstAt(xs, c, i + 1);
    } else {
      assert c !in xs;
    }
  }

  /** Each listed card that is (still) in the hand leaves it and goes to the
      end of the discard pile, in list order. Returns the hand and the pile. */
  function DiscardListed(hand: seq<Card>, pile: seq<Card>, listed: seq<Card>): (r: (seq<Card>, seq<Card>))
    ensures multiset(r.0) + multiset(r.1) == multiset(hand) + multiset(pile)
    ensures |pile| <= |r.1| && r.1[..|pile|] == pile
    decreases |listed|
  {
    if |listed| == 0 then (hand, pile)
    else
      var c := listed[0];
      assert listed == [c] + listed[1..];
      if c in hand then
        var r := DiscardListed(RemoveFirst(hand, c), pile + [c], listed[1..]);
        assert r.1[..|pile|] == (pile + [c])[..|pile|];
        r
      else
        DiscardListed(hand, pile, listed[1..])
  }

  /** What discarding a list means, card by card: each card x leaves the hand
      as many times as it is both held and listed, and the pile gains exactly
      those copies. Listing a card more often than it is held moves only the
      copies held; listing a card not held moves nothing. */
  lemma {:induction false} DiscardListedMoves(hand: seq<Card>, pile: seq<Card>, listed: seq<Card>, x: Card)
    ensures multiset(DiscardListed(hand, pile, listed).1)[x]
         == multiset(pile)[x] + Min(multiset(hand)[x], multiset(listed)[x])
    ensures multiset(DiscardListed(hand, pile, listed).0)[x]
         == multiset(hand)[x] - Min(multiset(hand)[x], multiset(listed)[x])
    decreases |listed|
  {
    if |listed| > 0 {
      var c := listed[0];
      assert listed == [c] + listed[1..];
      assert multiset(listed) == multiset{c} + multiset(listed[1..]);
      if c in hand {
        assert multiset(RemoveFirst(hand, c)) + multiset{c} == multiset(hand);
        DiscardListedMoves(RemoveFirst(hand, c), pile + [c], listed[1..], x);
      } else {
        assert multiset(hand)[c] == 0;
        DiscardListedMoves(hand, pile, listed[1..], x);
      }
    }
  }

  /** Removing listed cards that are all different from the hand's first card
      leaves that card in front. */
  lemma {:induction false} DiscardSkipsHead(h: Card, rest: seq<Card>, pile: seq<Card>, listed: seq<Card>)
    requires h !in listed
    ensures DiscardListed([h] + rest, pile, listed).0 == [h] + DiscardListed(rest, pile, listed).0
    ensures DiscardListed([h] + rest, pile, listed).1 == DiscardListed(rest, pile, listed).1
    decreases |listed|
  {
    if |listed| > 0 {
      var c := listed[0];
      assert listed == [c] + listed[1..];
      assert ([h] + rest)[1..] == rest;
      if c in rest {
        RemoveFirstSkipsHead(h, rest, c);
        DiscardSkipsHead(h, RemoveFirst(rest, c), pile + [c], listed[1..]);
      } else {
        DiscardSkipsHead(h, rest, pile, listed[1..]);
      }
    }
  }

  lemma DiscardSelectedHead(hand: seq<Card>, pile: seq<Card>)
    requires |hand| > 0 && hand[0].selected
    ensures Selected(hand) == [hand[0]] + Selected(hand[1..])
    ensures Unselected(hand) == Unselected(hand[1..])
    ensures DiscardListed(hand, pile, Selected(hand)).0 == DiscardListed(hand[1..], pile + [hand[0]], Selected(hand[1..])).0
    ensures DiscardListed(hand, pile, Selected(hand)).1 == DiscardListed(hand[1..], pile + [hand[0]], Selected(hand[1..])).1
  {
    assert hand == [hand[0]] + hand[1..];
    assert RemoveFirst(hand, hand[0]) == hand[1..];
    assert Selected(hand)[1..] == Selected(hand[1..]);
  }

  lemma DiscardUnselectedHead(hand: seq<Card>, pile: seq<Card>)
    requires |hand| > 0 && !hand[0].selected
    ensures Selected(hand) == Selected(hand[1..])
    ensures Unselected(hand) == [hand[0]] + Unselected(hand[1..])
    ensures DiscardListed(hand, pile, Selected(hand)).0 == [hand[0]] + DiscardListed(hand[1..], pile, Selected(hand[1..])).0
    ensures DiscardListed(hand, pile, Selected(hand)).1 == DiscardListed(hand[1..], pile, Selected(hand[1..])).1
  {
    assert hand == [hand[0]] + hand[1..];
    assert hand[0] !in Selected(hand[1..]);
    DiscardSkipsHead(hand[0], hand[1..], pile, Selected(hand[1..]));
  }

  /** Discarding the selection keeps the unselected cards in hand, in order. */
  lemma {:induction false} DiscardKeepsUnselected(hand: seq<Card>, pile: seq<Card>)
    ensures DiscardListed(hand, pile, Selected(hand)).0 == Unselected(hand)
    decreases |hand|
  {
    if |hand| > 0 {
      var h := hand[0];
      var rest := hand[1..];
      if h.selected {
        DiscardSelectedHead(hand, pile);
        DiscardKeepsUnselected(rest, pile + [h]);
        assert DiscardListed(hand, pile, Selected(hand)).0 == Unselected(rest);
      } else {
        DiscardUnselectedHead(hand, pile);
        DiscardKeepsUnselected(rest, pile);
        assert DiscardListed(hand, pile, Selected(hand)).0 == [h] + Unselected(rest);
      }
    }
  }

  /** Discarding the selection appends the selected cards to the pile, in hand order. */
  lemma {:induction false} DiscardAppendsSelected(hand: seq<Card>, pile: seq<Card>)
    ensures DiscardListed(hand, pile, Selected(hand)).1 == pile + Selected(hand)
    decreases |hand|
  {
    if |hand| > 0 {
      var h := hand[0];
      var rest := hand[1..];
      if h.selected {
        assert DiscardListed(hand, pile, Selected(hand)).1 == (pile + [h]) + Selected(rest) by {
          DiscardSelectedHead(hand, pile);
          DiscardAppendsSelected(rest, pile + [h]);
        }
        assert Selected(hand) == [h] + Selected(rest) by {
          DiscardSelectedHead(hand, pile);
        }
        assert (pile + [h]) + Selected(rest) == pile + ([h] + Selected(rest));
      } else {
        assert DiscardListed(hand, pile, Selected(hand)).1 == pile + Selected(rest) by {
          DiscardUnselectedHead(hand, pile);
          DiscardAppendsSelected(rest, pile);
        }
        assert Selected(hand) == Selected(rest) by {
          DiscardUnselectedHead(hand, pile);
        }
      }
    }
  }

  /** Discarding the selection: the unselected cards stay in order and the
      selected ones go to the end of the pile in hand order. */
  lemma DiscardingSelection(hand: seq<Card>, pile: seq<Card>)
    ensures DiscardListed(hand, pile, Selected(hand)).0 == Unselected(hand)
    ensures DiscardListed(hand, pile, Selected(hand)).1 == pile + Selected(hand)
  {
    DiscardKeepsUnselected(hand, pile);
    DiscardAppendsSelected(hand, pile);
  }

  // ---------------------------------------------------------------------------
  // Dealing

  /** The cards in the opposite order. */
  function Reversed(s: seq<Card>): (r: seq<Card>)
    ensures |r| == |s|
  {
    if |s| == 0 then []
    else
      assert s == s[..|s| - 1] + [s[|s| - 1]];
      [s[|s| - 1]] + Reversed(s[..|s| - 1])
  }

  lemma {:induction false} ReversedSameCards(s: seq<Card>)
    ensures multiset(Reversed(s)) == multiset(s)
  {
    if |s| > 0 {
      var front := s[..|s| - 1];
      var last := s[|s| - 1];
      ReversedSameCards(front);
      assert s == front + [last];
      assert Reversed(s) == [last] + Reversed(front);
      assert multiset(Reversed(s)) == multiset{last} + multiset(Reversed(front));
      assert multiset(s) == multiset(front) + multiset{last};
    }
  }

  lemma ReversedSnoc(s: seq<Card>, x: Card)
    ensures Reversed(s + [x]) == [x] + Reversed(s)
  {
    assert (s + [x])[..|s + [x]| - 1] == s;
  }

  /** Position i of the reversal holds the i-th card from the end. */
  lemma {:induction false} ReversedAt(s: seq<Card>)
    ensures forall i | 0 <= i < |s| :: Reversed(s)[i] == s[|s| - 1 - i]
  {
    if |s| > 0 {
      ReversedAt(s[..|s| - 1]);
    }
  }

  /** Pops k cards off the end of the deck one at a time, appending each to
      the hand: the hand gains the deck's last k cards, last card first. */
  function Draw(hand: seq<Card>, deck: seq<Card>, k: nat): (r: (seq<Card>, seq<Card>))
    requires k <= |deck|
    ensures r.1 == deck[..|deck| - k]
    ensures r.0 == hand + Reversed(deck[|deck| - k..])
    decreases k
  {
    if k == 0 then
      assert deck[..|deck|] == deck;
      assert deck[|deck|..] == [];
      (hand, deck)
    else
      var top := deck[|deck| - 1];
      var below := deck[..|deck| - 1];
      var r := Draw(hand + [top], below, k - 1);
      assert r.1 == deck[..|deck| - k] by {
        assert below[..|below| - (k - 1)] == deck[..|deck| - k];
      }
      assert r.0 == hand + Reversed(deck[|deck| - k..]) by {
        var rest := below[|below| - (k - 1)..];
        assert deck[|deck| - k..] == rest + [top];
        ReversedSnoc(rest, top);
        assert hand + [top] + Reversed(rest) == hand + ([top] + Reversed(rest));
      }
      r
  }

  /** How many cards a deal hands out: enough to fill the hand, at most the
      whole deck, and none when the hand is already full. */
  function DealCount(room: int, available: nat): (n: nat)
    ensures n <= available
    ensures room <= 0 ==> n == 0
    ensures room > 0 ==> n == room || n == available
    ensures room > 0 ==> n <= room
  {
    if room <= 0 then 0 else if room < available then room else available
  }

  /** The hand once the listed cards are discarded. */
  function Kept(t: Table, toDiscard: seq<Card>): seq<Card> {
    DiscardListed(t.hand, t.discard, toDiscard).0
  }

  /** The discard pile once the listed cards are discarded. */
  function Pile(t: Table, toDiscard: seq<Card>): seq<Card> {
    DiscardListed(t.hand, t.discard, toDiscard).1
  }

  /** How many cards the deal takes from the deck. */
  function Dealt(t: Table, maxHand: int, toDiscard: seq<Card>): nat {
    DealCount(maxHand - |Kept(t, toDiscard)|, |t.deck|)
  }

  /** A deal: discard the listed cards that are in the hand, fill the hand
      towards maxHand from the end of the deck, and when fewer than five cards
      are left in the deck, replace it with a shuffle of the discard pile and
      empty the pile. */
  function DealHand(t: Table, maxHand: int, toDiscard: seq<Card>, sh: Shuffler): (r: Table)
    requires IsShuffler(sh)
    ensures r.hand == Kept(t, toDiscard) + Reversed(t.deck[|t.deck| - Dealt(t, maxHand, toDiscard)..])
    ensures |t.deck| - Dealt(t, maxHand, toDiscard) < 5 ==>
              r.discard == [] && multiset(r.deck) == multiset(Pile(t, toDiscard))
    ensures |t.deck| - Dealt(t, maxHand, toDiscard) >= 5 ==>
              r.deck == t.deck[..|t.deck| - Dealt(t, maxHand, toDiscard)] && r.discard == Pile(t, toDiscard)
  {
    var kept := Kept(t, toDiscard);
    var pile := Pile(t, toDiscard);
    var n := Dealt(t, maxHand, toDiscard);
    var drawn := Draw(kept, t.deck, n);
    if |drawn.1| < 5 then
      Table(sh(pile), drawn.0, [])
    else
      Table(drawn.1, drawn.0, pile)
  }

  /** The bookkeeping behind a deal, on plain sequences: the hand and pile
      after discarding, the deck split into what stays and what is drawn. */
  lemma DealBags(t: Table, kept: seq<Card>, pile: seq<Card>, rest: seq<Card>, drawn: seq<Card>, r: Table)
    requires multiset(kept) + multiset(pile) == multiset(t.hand) + multiset(t.discard)
    requires t.deck == rest + drawn
    requires multiset(r.hand) == multiset(kept) + multiset(drawn)
    requires (r.discard == [] && multiset(r.deck) == multiset(pile)) || (r.deck == rest && r.discard == pile)
    ensures multiset(Contents(r)) <= multiset(Contents(t))
  {
    assert multiset(Contents(t)) == multiset(rest) + multiset(drawn) + multiset(t.hand) + multiset(t.discard);
    assert multiset(Contents(r)) == multiset(r.deck) + multiset(r.hand) + multiset(r.discard);
    forall x ensures multiset(Contents(r))[x] <= multiset(Contents(t))[x] {
      assert (multiset(kept) + multiset(pile))[x] == (multiset(t.hand) + multiset(t.discard))[x];
      assert multiset(r.hand)[x] == multiset(kept)[x] + multiset(drawn)[x];
    }
  }

  /** A deal only moves cards; the reshuffle may drop what was left of the deck. */
  lemma DealConserves(t: Table, maxHand: int, toDiscard: seq<Card>, sh: Shuffler)
    requires IsShuffler(sh)
    ensures multiset(Contents(DealHand(t, maxHand, toDiscard, sh))) <= multiset(Contents(t))
  {
    var n := Dealt(t, maxHand, toDiscard);
    var drawn := t.deck[|t.deck| - n..];
    assert t.deck == t.deck[..|t.deck| - n] + drawn;
    ReversedSameCards(drawn);
    DealBags(t, Kept(t, toDiscard), Pile(t, toDiscard), t.deck[..|t.deck| - n], drawn, DealHand(t, maxHand, toDiscard, sh));
  }

  /** A deal never pushes the hand past its limit, and fills it to the limit
      whenever the deck holds enough cards. */
  lemma DealRespectsLimit(t: Table, maxHand: int, toDiscard: seq<Card>, sh: Shuffler)
    requires IsShuffler(sh)
    ensures var kept := DiscardListed(t.hand, t.discard, toDiscard).0;
            var r := DealHand(t, maxHand, toDiscard, sh);
            && (|kept| <= maxHand ==> |r.hand| <= maxHand)
            && (|kept| > maxHand ==> r.hand == kept)
            && (|kept| <= maxHand <= |kept| + |t.deck| ==> |r.hand| == maxHand)
  {
    var kept := DiscardListed(t.hand, t.discard, toDiscard).0;
    var r := DealHand(t, maxHand, toDiscard, sh);
  }

  /** Keys stay distinct through any deal. */
  lemma DealKeepsDistinct(t: Table, maxHand: int, toDiscard: seq<Card>, sh: Shuffler)
    requires IsShuffler(sh)
    requires Distinct(Keys(Contents(t)))
    ensures Distinct(Keys(Contents(DealHand(t, maxHand, toDiscard, sh))))
  {
    DealConserves(t, maxHand, toDiscard, sh);
    DistinctKeysOfSubBag(Contents(DealHand(t, maxHand, toDiscard, sh)), Contents(t));
  }

  /** Dealing with the hand's selection as the cards to discard keeps the
      unselected cards, in order, ahead of the newly drawn ones. */
  lemma DealingSelectionHand(t: Table, maxHand: int, sh: Shuffler)
    requires IsShuffler(sh)
    ensures DealHand(t, maxHand, Selected(t.hand), sh).hand ==
              Unselected(t.hand) + Reversed(t.deck[|t.deck| - Dealt(t, maxHand, Selected(t.hand))..])
  {
    DiscardingSelection(t.hand, t.discard);
  }

  /** Without a reshuffle, dealing with the hand's selection as the cards to
      discard puts the selection on the pile and shortens the deck by the
      cards drawn. */
  lemma DealingSelectionPiles(t: Table, maxHand: int, sh: Shuffler)
    requires IsShuffler(sh)
    requires |t.deck| - Dealt(t, maxHand, Selected(t.hand)) >= 5
    ensures DealHand(t, maxHand, Selected(t.hand), sh).deck == t.deck[..|t.deck| - Dealt(t, maxHand, Selected(t.hand))]
    ensures DealHand(t, maxHand, Selected(t.hand), sh).discard == t.discard + Selected(t.hand)
  {
    DiscardingSelection(t.hand, t.discard);
  }
}
