/** Classification of a selection of cards into a poker hand category.

    `EvaluateHand` follows the program: it tallies the ranks, sorts the tally
    in descending order and walks a first-match-wins chain of tests.
    `ReferenceCategory` states the same rules in poker terms (the largest
    group of one rank, how many ranks form groups of a given size, five
    consecutive ranks), and `EvaluateMatchesReference` proves the two agree
    on every sequence of cards. */
module HandEvaluator {
  import opened Cards

  /** How many of the cards have rank r. */
  function Count(cards: seq<Card>, r: int): nat {
    if |cards| == 0 then 0
    else (if cards[0].rank == r then 1 else 0) + Count(cards[1..], r)
  }

  /** Every card's rank is counted. */
  lemma {:induction false} CountOfHeld(cards: seq<Card>, i: int)
    requires 0 <= i < |cards|
    ensures Count(cards, cards[i].rank) >= 1
    decreases |cards|
  {
    if i > 0 {
      CountOfHeld(cards[1..], i - 1);
    }
  }

  function Hit(c: Card, r: int): nat {
    if c.rank == r then 1 else 0
  }

  lemma CountCons(c: Card, rest: seq<Card>, r: int)
    ensures Count([c] + rest, r) == Hit(c, r) + Count(rest, r)
  {
    assert ([c] + rest)[1..] == rest;
  }

  /** The count over five cards, card by card. */
  lemma CountFive(cards: seq<Card>, r: int)
    requires |cards| == 5
    ensures Count(cards, r) == Hit(cards[0], r) + Hit(cards[1], r) + Hit(cards[2], r) + Hit(cards[3], r) + Hit(cards[4], r)
  {
    var a, b, c, d, e := cards[0], cards[1], cards[2], cards[3], cards[4];
    CountCons(e, [], r);
    CountCons(d, [e], r);
    CountCons(c, [d, e], r);
    CountCons(b, [c, d, e], r);
    CountCons(a, [b, c, d, e], r);
    assert cards == [a] + [b, c, d, e];
    assert [b] + [c, d, e] == [b, c, d, e];
    assert [c] + [d, e] == [c, d, e];
    assert [d] + [e] == [d, e];
    assert [e] + [] == [e];
  }

  lemma {:induction false} CountAtMostLength(cards: seq<Card>, r: int)
    ensures Count(cards, r) <= |cards|
  {
    if |cards| > 0 {
      CountAtMostLength(cards[1..], r);
    }
  }

  // ---------------------------------------------------------------------------
  // The program's computation

  /** The rank tally: for every rank among lo..14 that occurs, the number of
      cards holding it, in rank order. */
  function TallyFrom(cards: seq<Card>, lo: int): seq<nat>
    decreases 15 - lo
  {
    if lo > 14 then []
    else (if Count(cards, lo) > 0 then [Count(cards, lo)] else []) + TallyFrom(cards, lo + 1)
  }

  /** The ranks among lo..14 that occur, ascending: the sorted set of ranks. */
  function PresentFrom(cards: seq<Card>, lo: int): seq<int>
    decreases 15 - lo
  {
    if lo > 14 then []
    else (if Count(cards, lo) > 0 then [lo] else []) + PresentFrom(cards, lo + 1)
  }

  /** The present ranks lie among lo..14 and occur. */
  lemma {:induction false} PresentInRange(cards: seq<Card>, lo: int)
    decreases 15 - lo
    ensures forall i | 0 <= i < |PresentFrom(cards, lo)| ::
              lo <= PresentFrom(cards, lo)[i] <= 14 && Count(cards, PresentFrom(cards, lo)[i]) > 0
  {
    if lo <= 14 {
      PresentInRange(cards, lo + 1);
      var head: seq<int> := if Count(cards, lo) > 0 then [lo] else [];
      var rest := PresentFrom(cards, lo + 1);
      assert PresentFrom(cards, lo) == head + rest;
      forall i | |head| <= i < |head + rest| ensures (head + rest)[i] == rest[i - |head|] {
      }
    }
  }

  /** The present ranks are strictly ascending. */
  lemma {:induction false} PresentIncreasing(cards: seq<Card>, lo: int)
    decreases 15 - lo
    ensures forall i, j | 0 <= i < j < |PresentFrom(cards, lo)| :: PresentFrom(cards, lo)[i] < PresentFrom(cards, lo)[j]
  {
    if lo <= 14 {
      PresentIncreasing(cards, lo + 1);
      PresentInRange(cards, lo + 1);
      var head: seq<int> := if Count(cards, lo) > 0 then [lo] else [];
      var rest := PresentFrom(cards, lo + 1);
      assert PresentFrom(cards, lo) == head + rest;
      forall i, j | 0 <= i < j < |head + rest| ensures (head + rest)[i] < (head + rest)[j] {
        assert (head + rest)[j] == rest[j - |head|];
        if i >= |head| {
          assert (head + rest)[i] == rest[i - |head|];
        }
      }
    }
  }

  /** Every rank among lo..14 that occurs is present. */
  lemma {:induction false} PresentComplete(cards: seq<Card>, lo: int)
    decreases 15 - lo
    ensures forall r | lo <= r <= 14 && Count(cards, r) > 0 :: r in PresentFrom(cards, lo)
  {
    if lo <= 14 {
      PresentComplete(cards, lo + 1);
      var head: seq<int> := if Count(cards, lo) > 0 then [lo] else [];
      var rest := PresentFrom(cards, lo + 1);
      assert PresentFrom(cards, lo) == head + rest;
      forall r | lo <= r <= 14 && Count(cards, r) > 0 ensures r in head + rest {
        if r > lo {
          assert r in rest;
        }
      }
    }
  }

  /** The list of present ranks is ascending and holds exactly the ranks
      among lo..14 that occur. */
  lemma PresentFacts(cards: seq<Card>, lo: int)
    ensures var ps := PresentFrom(cards, lo);
            (forall i | 0 <= i < |ps| :: lo <= ps[i] <= 14 && Count(cards, ps[i]) > 0)
            && (forall i, j | 0 <= i < j < |ps| :: ps[i] < ps[j])
            && (forall r | lo <= r <= 14 && Count(cards, r) > 0 :: r in ps)
  {
    PresentInRange(cards, lo);
    PresentIncreasing(cards, lo);
    PresentComplete(cards, lo);
  }

  predicate SortedDesc(xs: seq<nat>) {
    forall i, j | 0 <= i < j < |xs| :: xs[i] >= xs[j]
  }

  /** Putting a head no smaller than x in front of a sorted insertion of x
      into the tail keeps the sequence sorted. */
  lemma PrependSorted(h: nat, xs: seq<nat>, x: nat, tail: seq<nat>)
    requires SortedDesc([h] + xs) && SortedDesc(tail) && x <= h
    requires multiset(tail) == multiset(xs) + multiset{x}
    ensures SortedDesc([h] + tail)
  {
    forall k | 0 <= k < |tail| ensures tail[k] <= h {
      assert tail[k] in multiset(tail);
      if tail[k] != x {
        assert tail[k] in xs;
        var i :| 0 <= i < |xs| && xs[i] == tail[k];
        assert ([h] + xs)[i + 1] == xs[i] && ([h] + xs)[0] == h;
      }
    }
  }

  function Insert(x: nat, xs: seq<nat>): (r: seq<nat>)
    requires SortedDesc(xs)
    ensures SortedDesc(r)
    ensures multiset(r) == multiset(xs) + multiset{x}
  {
    if |xs| == 0 || x >= xs[0] then [x] + xs
    else
      assert xs == [xs[0]] + xs[1..];
      var tail := Insert(x, xs[1..]);
      PrependSorted(xs[0], xs[1..], x, tail);
      [xs[0]] + tail
  }

  /** The tally sorted from the largest group to the smallest. */
  function SortDescending(xs: seq<nat>): (r: seq<nat>)
    ensures SortedDesc(r)
    ensures multiset(r) == multiset(xs)
  {
    if |xs| == 0 then []
    else
      assert xs == [xs[0]] + xs[1..];
      Insert(xs[0], SortDescending(xs[1..]))
  }

  /** All cards share one suit, and there is at least one card. */
  predicate OneSuit(cards: seq<Card>) {
    |cards| > 0 && forall i | 0 <= i < |cards| :: cards[i].suit == cards[0].suit
  }

  /** The first-match-wins chain over the sorted tally, the ascending list of
      ranks present, the one-suit test and the number of cards. */
  function Classify(counts: seq<nat>, present: seq<int>, isFlush: bool, n: nat): (r: (HandType, int))
    ensures r.1 == r.0.Order()
  {
    if |counts| == 0 then (HighCard, 0)
    else
      var isStraight := |present| == 5 && present[4] - present[0] == 4;
      if isStraight && isFlush && present[4] == 14 && present[0] == 10 then (RoyalFlush, 9)
      else if isStraight && isFlush then (StraightFlush, 8)
      else if counts[0] == 5 then (FiveOfAKind, 10)
      else if counts[0] == 4 then (FourOfAKind, 7)
      else if |counts| >= 2 && counts[0] == 3 && counts[1] == 2 then (FullHouse, 6)
      else if isFlush && n == 5 then (Flush, 5)
      else if isStraight then (Straight, 4)
      else if counts[0] == 3 then (ThreeOfAKind, 3)
      else if |counts| >= 2 && counts[0] == 2 && counts[1] == 2 then (TwoPair, 2)
      else if counts[0] == 2 then (Pair, 1)
      else (HighCard, 0)
  }

  /** The category of a selection and the order number paired with it. */
  function EvaluateHand(cards: seq<Card>): (r: (HandType, int))
    ensures r.1 == r.0.Order()
  {
    Classify(SortDescending(TallyFrom(cards, 8)), PresentFrom(cards, 8), OneSuit(cards), |cards|)
  }

  // ---------------------------------------------------------------------------
  // The rules in poker terms

  /** The size of the largest group of one rank among ranks lo..14. */
  function TopFrom(cards: seq<Card>, lo: int): nat
    decreases 15 - lo
  {
    if lo > 14 then 0 else Max(Count(cards, lo), TopFrom(cards, lo + 1))
  }

  function TopCount(cards: seq<Card>): nat {
    TopFrom(cards, 8)
  }

  /** How many ranks among lo..14 are held by exactly k cards. */
  function KindsFrom(cards: seq<Card>, k: nat, lo: int): nat
    decreases 15 - lo
  {
    if lo > 14 then 0
    else (if Count(cards, lo) == k then 1 else 0) + KindsFrom(cards, k, lo + 1)
  }

  function Kinds(cards: seq<Card>, k: nat): nat {
    KindsFrom(cards, k, 8)
  }

  /** The ranks that occur are exactly lo, lo+1, ..., lo+4. */
  predicate RunFrom(cards: seq<Card>, lo: int) {
    forall r: Rank :: Count(cards, r) > 0 <==> lo <= r <= lo + 4
  }

  /** Five consecutive ranks and no other; in a deck from eight to ace the
      lowest such run starts at eight and the highest at ten. */
  predicate IsRun(cards: seq<Card>) {
    RunFrom(cards, 8) || RunFrom(cards, 9) || RunFrom(cards, 10)
  }

  function ReferenceCategory(cards: seq<Card>): HandType {
    if |cards| == 0 then HighCard
    else if IsRun(cards) && OneSuit(cards) then
      (if RunFrom(cards, 10) then RoyalFlush else StraightFlush)
    else if TopCount(cards) == 5 then FiveOfAKind
    else if TopCount(cards) == 4 then FourOfAKind
    else if TopCount(cards) == 3 && Kinds(cards, 3) == 1 && Kinds(cards, 2) >= 1 then FullHouse
    else if OneSuit(cards) && |cards| == 5 then Flush
    else if IsRun(cards) then Straight
    else if TopCount(cards) == 3 then ThreeOfAKind
    else if TopCount(cards) == 2 && Kinds(cards, 2) >= 2 then TwoPair
    else if TopCount(cards) == 2 then Pair
    else HighCard
  }

  // ---------------------------------------------------------------------------
  // The tally and the reference notions agree

  /** The tally holds, for each group size k, one entry per rank held k times. */
  lemma {:induction false} TallyKinds(cards: seq<Card>, lo: int)
    ensures forall k: nat | k > 0 :: multiset(TallyFrom(cards, lo))[k] == KindsFrom(cards, k, lo)
    decreases 15 - lo
  {
    if lo <= 14 {
      TallyKinds(cards, lo + 1);
      var c := Count(cards, lo);
      var head: seq<nat> := if c > 0 then [c] else [];
      var rest := TallyFrom(cards, lo + 1);
      var all: seq<nat> := head + rest;
      assert TallyFrom(cards, lo) == all;
      var mh: multiset<nat> := multiset(head);
      assert multiset(all) == mh + multiset(rest);
      forall k: nat | k > 0 ensures multiset(all)[k] == KindsFrom(cards, k, lo) {
        assert mh[k] == if c == k then 1 else 0;
      }
    }
  }

  /** Every entry of the tally is positive and no larger than the largest group. */
  lemma {:induction false} TallyBounded(cards: seq<Card>, lo: int)
    ensures forall x | x in TallyFrom(cards, lo) :: 0 < x <= TopFrom(cards, lo)
    decreases 15 - lo
  {
    if lo <= 14 {
      TallyBounded(cards, lo + 1);
      var c := Count(cards, lo);
      var head: seq<nat> := if c > 0 then [c] else [];
      var rest := TallyFrom(cards, lo + 1);
      assert TallyFrom(cards, lo) == head + rest;
      forall x | x in head + rest ensures 0 < x <= TopFrom(cards, lo) {
        if x !in head {
          assert x in rest;
        }
      }
    }
  }

  /** The largest group appears in the tally. */
  lemma {:induction false} TallyHasTop(cards: seq<Card>, lo: int)
    ensures TopFrom(cards, lo) > 0 ==> TopFrom(cards, lo) in TallyFrom(cards, lo)
    decreases 15 - lo
  {
    if lo <= 14 {
      TallyHasTop(cards, lo + 1);
      var c := Count(cards, lo);
      var head: seq<nat> := if c > 0 then [c] else [];
      var rest := TallyFrom(cards, lo + 1);
      assert TallyFrom(cards, lo) == head + rest;
      if TopFrom(cards, lo) > 0 {
        if c >= TopFrom(cards, lo + 1) {
          assert TopFrom(cards, lo) == c;
          assert c in head;
        } else {
          assert TopFrom(cards, lo) == TopFrom(cards, lo + 1);
          assert TopFrom(cards, lo + 1) in rest;
        }
      }
    }
  }

  /** The tally holds, for each group size k, one entry per rank held k times,
      and its entries are bounded by (and include) the largest group. */
  lemma TallyMeaning(cards: seq<Card>, lo: int)
    ensures forall k: nat | k > 0 :: multiset(TallyFrom(cards, lo))[k] == KindsFrom(cards, k, lo)
    ensures forall x | x in TallyFrom(cards, lo) :: 0 < x <= TopFrom(cards, lo)
    ensures TopFrom(cards, lo) > 0 ==> TopFrom(cards, lo) in TallyFrom(cards, lo)
  {
    TallyKinds(cards, lo);
    TallyBounded(cards, lo);
    TallyHasTop(cards, lo);
  }

  lemma {:induction false} TopCovers(cards: seq<Card>, lo: int, r: int)
    requires lo <= r <= 14
    ensures Count(cards, r) <= TopFrom(cards, lo)
    decreases 15 - lo
  {
    if lo < r {
      TopCovers(cards, lo + 1, r);
    }
  }

  lemma {:induction false} TallyOfNoCards(cards: seq<Card>, lo: int)
    requires |cards| == 0
    ensures TallyFrom(cards, lo) == []
    decreases 15 - lo
  {
    if lo <= 14 {
      TallyOfNoCards(cards, lo + 1);
    }
  }

  /** The head of the sorted tally is the largest group. */
  lemma SortedTallyTop(cards: seq<Card>)
    requires |cards| > 0
    ensures |SortDescending(TallyFrom(cards, 8))| > 0
    ensures SortDescending(TallyFrom(cards, 8))[0] == TopCount(cards)
  {
    var tally := TallyFrom(cards, 8);
    var xs := SortDescending(tally);
    var top := TopCount(cards);
    assert top > 0 by {
      CountOfHeld(cards, 0);
      TopCovers(cards, 8, cards[0].rank);
    }
    assert top in tally by {
      TallyHasTop(cards, 8);
    }
    assert multiset(xs) == multiset(tally);
    assert top in multiset(xs);
    var j :| 0 <= j < |xs| && xs[j] == top;
    assert xs[0] >= top;
    assert xs[0] in multiset(tally);
    assert xs[0] in tally;
    assert xs[0] <= top by {
      TallyBounded(cards, 8);
      assert xs[0] <= TopFrom(cards, 8);
    }
  }

  /** The largest group is counted correctly by the head of the sorted tally,
      and the sorted tally still counts the ranks of every group size. */
  lemma SortedTallyHead(cards: seq<Card>)
    requires |cards| > 0
    ensures |SortDescending(TallyFrom(cards, 8))| > 0
    ensures SortDescending(TallyFrom(cards, 8))[0] == TopCount(cards)
    ensures forall k: nat | k > 0 :: multiset(SortDescending(TallyFrom(cards, 8)))[k] == Kinds(cards, k)
  {
    SortedTallyTop(cards);
    TallyKinds(cards, 8);
  }

  /** In a descending sequence headed by t, a second t exists exactly when t
      occurs twice. */
  lemma SortedSecondEqual(xs: seq<nat>, t: nat)
    requires SortedDesc(xs) && |xs| > 0 && xs[0] == t
    ensures multiset(xs)[t] >= 2 <==> |xs| >= 2 && xs[1] == t
  {
    assert xs == [xs[0]] + xs[1..];
    assert multiset(xs)[t] == 1 + multiset(xs[1..])[t];
    if multiset(xs)[t] >= 2 {
      assert t in xs[1..];
      var j :| 0 <= j < |xs[1..]| && xs[1..][j] == t;
      assert xs[j + 1] == t;
    }
    if |xs| >= 2 && xs[1] == t {
      assert xs[1..][0] == t;
    }
  }

  /** In a descending sequence headed by t, the second entry is t - 1 exactly
      when t occurs once and t - 1 occurs. */
  lemma SortedSecondBelow(xs: seq<nat>, t: nat)
    requires SortedDesc(xs) && |xs| > 0 && xs[0] == t && t >= 1
    ensures (|xs| >= 2 && xs[1] == t - 1) <==> multiset(xs)[t] == 1 && multiset(xs)[t - 1] >= 1
  {
    assert xs == [xs[0]] + xs[1..];
    assert multiset(xs)[t] == 1 + multiset(xs[1..])[t];
    assert multiset(xs)[t - 1] == multiset(xs[1..])[t - 1];
    if |xs| >= 2 && xs[1] == t - 1 {
      forall j | 0 <= j < |xs[1..]| ensures xs[1..][j] != t {
        assert xs[1..][j] == xs[j + 1];
      }
      assert t !in xs[1..];
      assert xs[1..][0] == t - 1;
    }
    if multiset(xs)[t] == 1 && multiset(xs)[t - 1] >= 1 {
      assert t - 1 in xs[1..];
      var j :| 0 <= j < |xs[1..]| && xs[1..][j] == t - 1;
      assert xs[j + 1] == t - 1;
      assert xs[1] >= t - 1;
      assert xs[1] != t by {
        assert xs[1] == xs[1..][0];
        assert t !in xs[1..];
      }
    }
  }

  lemma {:induction false} IncreasingSpread(d: seq<int>, i: int)
    requires forall a, b | 0 <= a < b < |d| :: d[a] < d[b]
    requires 0 <= i < |d|
    ensures d[i] >= d[0] + i
    decreases i
  {
    if i > 0 {
      IncreasingSpread(d, i - 1);
    }
  }

  /** A strictly increasing sequence whose values are exactly lo..lo+4 is that run. */
  lemma RunSeq(d: seq<int>, lo: int)
    requires forall a, b | 0 <= a < b < |d| :: d[a] < d[b]
    requires forall i | 0 <= i < |d| :: lo <= d[i] <= lo + 4
    requires forall v | lo <= v <= lo + 4 :: v in d
    ensures |d| == 5 && d[0] == lo && d[4] == lo + 4
  {
    var k := 0;
    while k < 5
      invariant 0 <= k <= 5 && k <= |d|
      invariant forall m | 0 <= m < k :: d[m] == lo + m
    {
      assert lo + k in d;
      var j :| 0 <= j < |d| && d[j] == lo + k;
      IncreasingSpread(d, j);
      k := k + 1;
    }
    IncreasingSpread(d, |d| - 1);
  }

  /** Five present ranks spanning four values form the run starting at the lowest. */
  lemma RunOfPresent(cards: seq<Card>, p: seq<int>)
    requires forall i | 0 <= i < |p| :: 8 <= p[i] <= 14 && Count(cards, p[i]) > 0
    requires forall i, j | 0 <= i < j < |p| :: p[i] < p[j]
    requires forall r | 8 <= r <= 14 && Count(cards, r) > 0 :: r in p
    requires |p| == 5 && p[4] - p[0] == 4
    ensures RunFrom(cards, p[0])
  {
    assert p[0] < p[1] < p[2] < p[3] < p[4];
    var lo := p[0];
    assert p[1] == lo + 1 && p[2] == lo + 2 && p[3] == lo + 3 && p[4] == lo + 4;
    forall r: Rank ensures Count(cards, r) > 0 <==> lo <= r <= lo + 4 {
      if Count(cards, r) > 0 {
        assert r in p;
        var i :| 0 <= i < 5 && p[i] == r;
      }
      if lo <= r <= lo + 4 {
        assert r == p[0] || r == p[1] || r == p[2] || r == p[3] || r == p[4];
      }
    }
  }

  /** A run starting at lo is seen by the program as five present ranks from lo. */
  lemma PresentOfRun(cards: seq<Card>, lo: int, p: seq<int>)
    requires 8 <= lo <= 10 && RunFrom(cards, lo)
    requires forall i | 0 <= i < |p| :: 8 <= p[i] <= 14 && Count(cards, p[i]) > 0
    requires forall i, j | 0 <= i < j < |p| :: p[i] < p[j]
    requires forall r | 8 <= r <= 14 && Count(cards, r) > 0 :: r in p
    ensures |p| == 5 && p[0] == lo && p[4] == lo + 4
  {
    forall i | 0 <= i < |p| ensures lo <= p[i] <= lo + 4 {
      var r: Rank := p[i];
      assert Count(cards, r) > 0;
    }
    forall v | lo <= v <= lo + 4 ensures v in p {
      var r: Rank := v;
      assert Count(cards, r) > 0;
    }
    RunSeq(p, lo);
  }

  /** The program's straight test says: the ranks form five consecutive values;
      its royal test says: those values are ten to ace. */
  lemma StraightMeaning(cards: seq<Card>)
    ensures var p := PresentFrom(cards, 8);
            (|p| == 5 && p[4] - p[0] == 4) <==> IsRun(cards)
    ensures var p := PresentFrom(cards, 8);
            (|p| == 5 && p[4] - p[0] == 4 && p[4] == 14 && p[0] == 10) <==> RunFrom(cards, 10)
  {
    var p := PresentFrom(cards, 8);
    PresentFacts(cards, 8);
    if |p| == 5 && p[4] - p[0] == 4 {
      RunOfPresent(cards, p);
    }
    if RunFrom(cards, 8) {
      PresentOfRun(cards, 8, p);
    }
    if RunFrom(cards, 9) {
      PresentOfRun(cards, 9, p);
    }
    if RunFrom(cards, 10) {
      PresentOfRun(cards, 10, p);
    }
  }

  /** The chain of tests, fed with facts about the tally and the present
      ranks, picks the reference category. */
  lemma ClassifyMatchesReference(cards: seq<Card>, counts: seq<nat>, p: seq<int>)
    requires |cards| > 0
    requires SortedDesc(counts) && |counts| > 0 && counts[0] == TopCount(cards)
    requires forall k: nat | k > 0 :: multiset(counts)[k] == Kinds(cards, k)
    requires (|p| == 5 && p[4] - p[0] == 4) <==> IsRun(cards)
    requires (|p| == 5 && p[4] - p[0] == 4 && p[4] == 14 && p[0] == 10) <==> RunFrom(cards, 10)
    ensures Classify(counts, p, OneSuit(cards), |cards|).0 == ReferenceCategory(cards)
  {
    if counts[0] == 3 {
      SortedSecondBelow(counts, 3);
    }
    if counts[0] == 2 {
      SortedSecondEqual(counts, 2);
    }
  }

  /** The program's classification agrees with the rules stated in poker terms,
      for every sequence of cards (of any length). */
  lemma EvaluateMatchesReference(cards: seq<Card>)
    ensures EvaluateHand(cards).0 == ReferenceCategory(cards)
  {
    if |cards| == 0 {
      TallyOfNoCards(cards, 8);
    } else {
      var counts := SortDescending(TallyFrom(cards, 8));
      var p := PresentFrom(cards, 8);
      SortedTallyHead(cards);
      StraightMeaning(cards);
      ClassifyMatchesReference(cards, counts, p);
    }
  }

  // ---------------------------------------------------------------------------
  // Consequences

  /** No cards: high card with order number 0. */
  lemma EmptyIsHighCard()
    ensures EvaluateHand([]) == (HighCard, 0)
  {
    TallyOfNoCards([], 8);
  }

  /** At most one run start fits a set of ranks: ten to ace excludes the lower ones. */
  lemma RoyalRunExcludesLower(cards: seq<Card>)
    requires RunFrom(cards, 10)
    ensures !RunFrom(cards, 8) && !RunFrom(cards, 9)
  {
    var ace: Rank := 14;
    assert Count(cards, ace) > 0;
  }

  lemma ReferenceStraights(cards: seq<Card>)
    ensures ReferenceCategory(cards) in {Straight, StraightFlush, RoyalFlush} ==> IsRun(cards)
    ensures IsRun(cards) && OneSuit(cards) ==> ReferenceCategory(cards) in {StraightFlush, RoyalFlush}
    ensures ReferenceCategory(cards) == RoyalFlush <==> RunFrom(cards, 10) && OneSuit(cards)
  {
    if RunFrom(cards, 10) {
      RoyalRunExcludesLower(cards);
    }
  }

  /** A straight of any kind is reported only for five consecutive ranks, and
      five consecutive ranks in one suit are always a straight flush or royal
      flush, royal exactly when the run is ten to ace. */
  lemma StraightsAreRuns(cards: seq<Card>)
    ensures EvaluateHand(cards).0 in {Straight, StraightFlush, RoyalFlush} ==> IsRun(cards)
    ensures IsRun(cards) && OneSuit(cards) ==> EvaluateHand(cards).0 in {StraightFlush, RoyalFlush}
    ensures EvaluateHand(cards).0 == RoyalFlush <==> RunFrom(cards, 10) && OneSuit(cards)
  {
    EvaluateMatchesReference(cards);
    ReferenceStraights(cards);
  }

  lemma ReferenceFlush(cards: seq<Card>)
    ensures ReferenceCategory(cards) == Flush ==> OneSuit(cards) && |cards| == 5
  {
  }

  /** A flush needs one suit and exactly five cards. */
  lemma FlushNeedsFive(cards: seq<Card>)
    ensures EvaluateHand(cards).0 == Flush ==> OneSuit(cards) && |cards| == 5
  {
    EvaluateMatchesReference(cards);
    ReferenceFlush(cards);
  }

  lemma ReferenceFiveOfOneRank(cards: seq<Card>)
    requires |cards| == 5
    requires forall i | 0 <= i < 5 :: cards[i].rank == cards[0].rank
    ensures ReferenceCategory(cards) == FiveOfAKind
  {
    var r := cards[0].rank;
    OnlyRank(cards, r);
    TopCovers(cards, 8, r);
    forall s: Rank ensures Count(cards, s) <= 5 {
      CountAtMostLength(cards, s);
    }
    assert TopCount(cards) == 5 by {
      TopAtMost(cards, 8, 5);
    }
    forall lo | 8 <= lo <= 10 ensures !RunFrom(cards, lo) {
      var a: Rank := lo;
      var b: Rank := lo + 1;
      assert Count(cards, a) == 0 || Count(cards, b) == 0;
    }
  }

  /** Five cards of one rank (possible thanks to the fifth suit) are five of a kind. */
  lemma FiveOfOneRank(cards: seq<Card>)
    requires |cards| == 5
    requires forall i | 0 <= i < 5 :: cards[i].rank == cards[0].rank
    ensures EvaluateHand(cards) == (FiveOfAKind, 10)
  {
    ReferenceFiveOfOneRank(cards);
    EvaluateMatchesReference(cards);
    FiveOfAKindPair(EvaluateHand(cards));
  }

  lemma FiveOfAKindPair(e: (HandType, int))
    requires e.0 == FiveOfAKind && e.1 == e.0.Order()
    ensures e == (FiveOfAKind, 10)
  {
  }

  lemma {:induction false} TopAtMost(cards: seq<Card>, lo: int, n: nat)
    requires forall s: Rank :: Count(cards, s) <= n
    requires 8 <= lo
    ensures TopFrom(cards, lo) <= n
    decreases 15 - lo
  {
    if lo <= 14 {
      TopAtMost(cards, lo + 1, n);
      var s: Rank := lo;
      assert Count(cards, s) <= n;
    }
  }

  /** Cards all of rank r are all counted for r and hold no other rank. */
  lemma {:induction false} OnlyRank(cards: seq<Card>, r: Rank)
    requires forall i | 0 <= i < |cards| :: cards[i].rank == r
    ensures Count(cards, r) == |cards|
    ensures forall s | s != r :: Count(cards, s) == 0
  {
    if |cards| > 0 {
      OnlyRank(cards[1..], r);
    }
  }
}
