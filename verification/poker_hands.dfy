/** The best-hand evaluator: a fixed priority chain of category checks over 5 to 7 cards. */
module PokerHands {
  import opened Wrappers
  import opened Cards
  import opened CardListUtils

  /** The hand categories, weakest first. */
  datatype Category =
    | HighHand | OnePair | TwoPairs | ThreeOfAKind | Straight
    | Flush | FullHouse | FourOfAKind | StraightFlush | RoyalFlush

  /** The strength of a category; a stronger category has a larger value. */
  function OrderValue(c: Category): (v: int)
    ensures 1 <= v <= 10
  {
    match c
    case HighHand => 1
    case OnePair => 2
    case TwoPairs => 3
    case ThreeOfAKind => 4
    case Straight => 5
    case Flush => 6
    case FullHouse => 7
    case FourOfAKind => 8
    case StraightFlush => 9
    case RoyalFlush => 10
  }

  /** How many leading cards of a hand of this category make up the category itself. */
  function CardsRequired(c: Category): (n: nat)
    ensures 1 <= n <= 5
  {
    match c
    case HighHand => 1
    case OnePair => 2
    case TwoPairs => 4
    case ThreeOfAKind => 3
    case FourOfAKind => 4
    case _ => 5
  }

  /** Different categories have different strengths. */
  lemma OrderValueInjective(a: Category, b: Category)
    requires OrderValue(a) == OrderValue(b)
    ensures a == b
  {
  }

  /** A hand: its cards, most significant first, and its category. */
  datatype GameHand = GameHand(cards: seq<Card>, category: Category)

  /** Five different cards, all taken from `cards`. */
  predicate FiveOf(h: seq<Card>, cards: seq<Card>) {
    |h| == 5 && Distinct(h) && forall c :: c in h ==> c in cards
  }

  /* ---------------------------------------------------------------- flushes */

  /** `getPossibleSuitOfFiveCards`: the cards of the first suit, in suit order, that has at least five. */
  function SuitOfFiveCards(cards: seq<Card>): (r: Option<seq<Card>>)
    ensures r.Some? ==> |r.value| >= 5 && r.value == WithSuit(cards, r.value[0].suit)
    ensures r.None? <==> forall u :: |WithSuit(cards, u)| < 5
  {
    if |WithSuit(cards, Clubs)| >= 5 then SuitBucket(cards, Clubs)
    else if |WithSuit(cards, Diamonds)| >= 5 then SuitBucket(cards, Diamonds)
    else if |WithSuit(cards, Hearts)| >= 5 then SuitBucket(cards, Hearts)
    else if |WithSuit(cards, Spades)| >= 5 then SuitBucket(cards, Spades)
    else None
  }

  function SuitBucket(cards: seq<Card>, u: Suit): (r: Option<seq<Card>>)
    requires |WithSuit(cards, u)| > 0
    ensures r.Some? && r.value == WithSuit(cards, u) && r.value[0].suit == u
  {
    var b := WithSuit(cards, u);
    assert b[0] in b;
    Some(b)
  }

  /** With at most nine different cards only one suit can hold five of them, so the suit order used by the
      search does not matter. */
  lemma OnlyOneSuitOfFive(cards: seq<Card>, u: Suit, v: Suit)
    requires Distinct(cards) && |cards| <= 9
    requires |WithSuit(cards, u)| >= 5 && |WithSuit(cards, v)| >= 5
    ensures u == v
  {
    if u != v {
      SuitBucketsDisjointSize(cards, u, v);
    }
  }

  /** The five ranks of a royal flush, read from the fifth card back to the first. */
  predicate Broadway(top: seq<Card>)
    requires |top| == 5
  {
    top[4].rank == TEN && top[3].rank == JACK && top[2].rank == QUEEN && top[1].rank == KING && top[0].rank == ACE
  }

  lemma BroadwayRanks(top: seq<Card>)
    requires |top| == 5
    ensures Broadway(top) <==> RankSeq(top) == [ACE, KING, QUEEN, JACK, TEN]
  {
    if RankSeq(top) == [ACE, KING, QUEEN, JACK, TEN] {
      assert RankSeq(top)[0] == ACE && RankSeq(top)[4] == TEN;
    }
  }

  /** `isRoyalFlush`: the five highest cards of the suit, if they are ACE down to TEN. */
  function IsRoyalFlush(suited: seq<Card>): (r: Option<GameHand>)
    requires |suited| > 4
    ensures r.Some? ==> r.value.category == RoyalFlush && |r.value.cards| == 5
    ensures r.Some? ==> forall c :: c in r.value.cards ==> c in suited
    ensures r.Some? && Distinct(suited) ==> Distinct(r.value.cards)
    ensures r.Some? <==> RankSeq(HighestSortedAndExclude(5, suited, None)) == [ACE, KING, QUEEN, JACK, TEN]
    ensures r.Some? ==> r.value.cards == HighestSortedAndExclude(5, suited, None)
  {
    var top := HighestSortedAndExclude(5, suited, None);
    BroadwayRanks(top);
    if Broadway(top) then Some(GameHand(top, RoyalFlush)) else None
  }

  /** A suit holding every rank from TEN to ACE is a royal flush. */
  lemma RoyalFlushFromRanks(suited: seq<Card>)
    requires |suited| > 4 && Distinct(suited)
    requires forall c :: c in suited ==> c.suit == suited[0].suit
    requires forall q: Rank :: q >= TEN ==> Count(suited, q) > 0
    ensures IsRoyalFlush(suited).Some?
  {
    var top := HighestSortedAndExclude(5, suited, None);
    assert |top| == 5 && Distinct(top);
    assert forall c :: c in top ==> c in suited;
    HighestAreHighest(5, suited, None);
    assert Remove(suited, None) == suited;
    OneSuitStrictlyDescending(top, suited[0].suit);
    TopRankIs(suited, top, 0);
    TopRankIs(suited, top, 1);
    TopRankIs(suited, top, 2);
    TopRankIs(suited, top, 3);
    TopRankIs(suited, top, 4);
    BroadwayRanks(top);
  }

  /** Different cards of one suit sorted by falling rank have strictly falling ranks. */
  lemma OneSuitStrictlyDescending(s: seq<Card>, u: Suit)
    requires Distinct(s) && RankDescending(s)
    requires forall c :: c in s ==> c.suit == u
    ensures forall i, j :: 0 <= i < j < |s| ==> s[i].rank > s[j].rank
  {
    forall i, j | 0 <= i < j < |s|
      ensures s[i].rank > s[j].rank
    {
      assert s[i] in s && s[j] in s;
    }
  }

  /** One step of the proof above: the `i`-th highest card of such a suit has rank ACE - i. */
  lemma TopRankIs(suited: seq<Card>, top: seq<Card>, i: int)
    requires |top| == 5 && 0 <= i < 5
    requires forall c :: c in top ==> c in suited
    requires forall j, k :: 0 <= j < k < 5 ==> top[j].rank > top[k].rank
    requires forall c, d :: c in suited && c !in top && d in top ==> c.rank <= d.rank
    requires forall q: Rank :: q >= TEN ==> Count(suited, q) > 0
    requires i > 0 ==> top[i - 1].rank == ACE - (i - 1)
    ensures top[i].rank == ACE - i
  {
    var want: Rank := ACE - i;
    assert Count(suited, want) > 0;
    var y := WithRank(suited, want)[0];
    assert y in WithRank(suited, want);
    assert i > 0 ==> top[i].rank < top[i - 1].rank;
    if y in top {
      var j :| 0 <= j < 5 && top[j] == y;
      assert j >= i;
    } else {
      assert top[4] in top;
    }
  }

  /** `isFlush`: the five highest cards of the suit, highest first. */
  function IsFlush(suited: seq<Card>): (h: GameHand)
    requires |suited| > 4
    ensures h.category == Flush && |h.cards| == 5
    ensures forall c :: c in h.cards ==> c in suited
    ensures Distinct(suited) ==> Distinct(h.cards)
    ensures RankDescending(h.cards)
    ensures forall c, d :: c in suited && c !in h.cards && d in h.cards ==> c.rank <= d.rank
  {
    HighestAreHighest(5, suited, None);
    GameHand(HighestSortedAndExclude(5, suited, None), Flush)
  }

  /* ---------------------------------------------------------------- straights */

  /** The rank after `r` on the cycle DEUCE, THREE, ..., KING, ACE, DEUCE. */
  function NextRank(r: Rank): Rank {
    if r == ACE then DEUCE else r + 1
  }

  /** `Adjacent` is one step along the rank cycle. */
  lemma AdjacentIsNextRank(a: Card, b: Card)
    ensures Adjacent(a, b) <==> b.rank == NextRank(a.rank)
  {
  }

  /** Along a run the ranks go round the 13-rank cycle. */
  lemma {:induction false} RunFollowsCycle(w: seq<Card>)
    requires forall k :: 0 < k < |w| ==> Adjacent(w[k - 1], w[k])
    ensures forall k :: 0 <= k < |w| ==> w[k].rank == (w[0].rank - 2 + k) % 13 + 2
  {
    if |w| > 1 {
      var init := w[..|w| - 1];
      RunFollowsCycle(init);
      var k := |w| - 1;
      assert w[k - 1] == init[k - 1];
      AdjacentIsNextRank(w[k - 1], w[k]);
      CycleStep(w[0].rank - 2 + k - 1);
    }
  }

  lemma CycleStep(x: nat)
    ensures (x + 1) % 13 == if x % 13 == 12 then 0 else x % 13 + 1
  {
    var q := x / 13;
    assert x == 13 * q + x % 13;
    if x % 13 == 12 {
      assert x + 1 == 13 * (q + 1);
    } else {
      assert x + 1 == 13 * q + (x % 13 + 1);
    }
  }

  /** A run of at most 13 cards never repeats a rank, so it never repeats a card. */
  lemma ShortRunDistinct(w: seq<Card>)
    requires |w| <= 13
    requires forall k :: 0 < k < |w| ==> Adjacent(w[k - 1], w[k])
    ensures Distinct(w)
  {
    RunFollowsCycle(w);
    forall i, j | 0 <= i < j < |w|
      ensures w[i].rank != w[j].rank
    {
      CycleDistinct(w[0].rank - 2, i, j);
    }
    DistinctRanksDistinct(w);
  }

  /** Fewer than 13 steps round the cycle never come back to the start. */
  lemma CycleDistinct(a: int, i: int, j: int)
    requires 0 <= a < 13 && 0 <= i < j < 13
    ensures (a + i) % 13 != (a + j) % 13
  {
    if a + i < 13 && a + j >= 13 {
      assert (a + j) % 13 == a + j - 13;
    }
  }

  /** The top five cards of a run of at least five, highest first, are five different cards, each one
      rank step below the one before it. */
  lemma TopOfRun(run: seq<Card>)
    requires |run| >= 5
    requires forall k :: 0 < k < |run| ==> Adjacent(run[k - 1], run[k])
    ensures var h := Reverse(run[|run| - 5..]);
      |h| == 5 && Distinct(h) && (forall k :: 0 < k < 5 ==> Adjacent(h[k], h[k - 1])) &&
      forall c :: c in h ==> c in run
  {
    var w := run[|run| - 5..];
    assert forall k :: 0 < k < |w| ==> Adjacent(w[k - 1], w[k]) by {
      forall k | 0 < k < |w|
        ensures Adjacent(w[k - 1], w[k])
      {
        assert w[k] == run[|run| - 5 + k];
      }
    }
    assert forall c :: c in w ==> c in run;
    ReversedRun(w);
  }

  /** Five run cards turned round. */
  lemma ReversedRun(w: seq<Card>)
    requires |w| == 5
    requires forall k :: 0 < k < |w| ==> Adjacent(w[k - 1], w[k])
    ensures var h := Reverse(w);
      Distinct(h) && (forall k :: 0 < k < 5 ==> Adjacent(h[k], h[k - 1])) && forall c :: c in h ==> c in w
  {
    ShortRunDistinct(w);
    var h := Reverse(w);
    ReverseKeepsCards(w);
    SameCardsKeepDistinct(w, h);
    forall c | c in h
      ensures c in w
    {
      assert c in multiset(w);
    }
  }

  /** `isStraight` and `isStraightFlush`: the five highest cards of the longest run, highest first, when
      that run has at least five cards. */
  function StraightOf(cards: seq<Card>, category: Category): (r: Option<GameHand>)
    requires |cards| > 0
    ensures r.Some? ==> r.value.category == category && |r.value.cards| == 5
    ensures r.Some? ==> Distinct(r.value.cards) && forall c :: c in r.value.cards ==> c in cards
    ensures r.Some? ==> forall k :: 0 < k < 5 ==> Adjacent(r.value.cards[k], r.value.cards[k - 1])
    ensures r.None? <==> NoRunLonger(AceExtended(cards), 4)
    ensures r.Some? ==> exists lo, hi :: TopOfChosenRun(AceExtended(cards), lo, hi, r.value.cards)
  {
    var run := LongestConsecutiveSubset(cards);
    if |run| < 5 then
      NoRunLongerWeakens(AceExtended(cards), |run|, 4);
      None
    else
      TopOfRun(run);
      NoRunLongerWeakens(AceExtended(cards), 4, |run| - 1);
      ChosenRunTop(cards, Reverse(run[|run| - 5..]));
      Some(GameHand(Reverse(run[|run| - 5..]), category))
  }

  /** `h` is the top five cards of the run `t[lo..hi]` picked by the run search, highest first. */
  ghost predicate TopOfChosenRun(t: seq<Card>, lo: int, hi: int, h: seq<Card>) {
    ChosenRun(t, lo, hi) && hi - lo >= 5 && h == Reverse(t[hi - 5..hi])
  }

  /** The last five cards of the longest run are the last five of the range the search chose. */
  lemma ChosenRunTop(cards: seq<Card>, h: seq<Card>)
    requires |cards| > 0 && |LongestConsecutiveSubset(cards)| >= 5
    requires var run := LongestConsecutiveSubset(cards); h == Reverse(run[|run| - 5..])
    ensures exists lo, hi :: TopOfChosenRun(AceExtended(cards), lo, hi, h)
  {
    var t := AceExtended(cards);
    var run := LongestConsecutiveSubset(cards);
    var lo, hi :| ChosenRun(t, lo, hi) && run == t[lo..hi];
    TopOfSlice(t, lo, hi, run, h);
  }

  lemma TopOfSlice(t: seq<Card>, lo: int, hi: int, run: seq<Card>, h: seq<Card>)
    requires ChosenRun(t, lo, hi) && run == t[lo..hi] && |run| >= 5 && h == Reverse(run[|run| - 5..])
    ensures TopOfChosenRun(t, lo, hi, h)
  {
    assert run[|run| - 5..] == t[hi - 5..hi];
  }

  /** `t[a..a + 5]` is a five-card run. */
  ghost predicate FiveRunAt(t: seq<Card>, a: int) {
    0 <= a && a + 5 <= |t| && IsRun(t, a, a + 5)
  }

  /** With at most eight entries a five-card run cannot end after a chosen run of five or more. */
  lemma FiveRunInside(t: seq<Card>, lo: int, hi: int, a: int)
    requires ChosenRun(t, lo, hi) && hi - lo >= 5 && |t| <= 8 && FiveRunAt(t, a)
    ensures a + 5 <= hi
  {
    if a + 5 > hi {
      if lo <= a < hi {
        RunUnion(t, lo, hi, a, a + 5);
      }
      assert false;
    }
  }

  /** With at most seven cards no five-card run of the ace-extended ranks ends above the top card of the
      straight found: the longest run is the highest one. */
  lemma StraightIsHighest(cards: seq<Card>, category: Category)
    requires 0 < |cards| <= 7
    ensures var r := StraightOf(cards, category); var t := AceExtended(cards);
      r.Some? ==> forall a :: FiveRunAt(t, a) ==> t[a + 4].rank <= r.value.cards[0].rank
  {
    var r := StraightOf(cards, category);
    if r.Some? {
      TopIsHighest(cards, r.value.cards);
    }
  }

  lemma TopIsHighest(cards: seq<Card>, h: seq<Card>)
    requires 0 < |cards| <= 7 && exists lo, hi :: TopOfChosenRun(AceExtended(cards), lo, hi, h)
    ensures forall a :: FiveRunAt(AceExtended(cards), a) ==> AceExtended(cards)[a + 4].rank <= h[0].rank
  {
    var t := AceExtended(cards);
    AceExtendedIncreasing(cards);
    var lo, hi :| TopOfChosenRun(t, lo, hi, h);
    assert h[0] == t[hi - 1];
    forall a | FiveRunAt(t, a)
      ensures t[a + 4].rank <= t[hi - 1].rank
    {
      FiveRunInside(t, lo, hi, a);
    }
  }

  /** `isStraightFlush`. */
  function IsStraightFlush(suited: seq<Card>): (r: Option<GameHand>)
    requires |suited| > 4
    ensures r.Some? ==> r.value.category == StraightFlush && |r.value.cards| == 5
    ensures r.Some? ==> Distinct(r.value.cards) && forall c :: c in r.value.cards ==> c in suited
    ensures r.Some? ==> forall k :: 0 < k < 5 ==> Adjacent(r.value.cards[k], r.value.cards[k - 1])
    ensures r.None? <==> NoRunLonger(AceExtended(suited), 4)
    ensures r.Some? ==> exists lo, hi :: TopOfChosenRun(AceExtended(suited), lo, hi, r.value.cards)
  {
    StraightOf(suited, StraightFlush)
  }

  /** `isStraight`; it needs at least one card, as the run search reads the highest one. */
  function IsStraight(cards: seq<Card>): (r: Option<GameHand>)
    requires |cards| > 0
    ensures r.Some? ==> r.value.category == Straight && |r.value.cards| == 5
    ensures r.Some? ==> Distinct(r.value.cards) && forall c :: c in r.value.cards ==> c in cards
    ensures r.Some? ==> forall k :: 0 < k < 5 ==> Adjacent(r.value.cards[k], r.value.cards[k - 1])
    ensures r.None? <==> NoRunLonger(AceExtended(cards), 4)
    ensures r.Some? ==> exists lo, hi :: TopOfChosenRun(AceExtended(cards), lo, hi, r.value.cards)
  {
    StraightOf(cards, Straight)
  }

  /* ---------------------------------------------------------------- same-rank categories */

  /** The lowest rank from `from` upward that holds exactly `n` cards (the first hit of an ascending scan
      over the rank distribution). */
  function LowestWithExactly(cards: seq<Card>, n: nat, from: int): (r: Option<Rank>)
    requires n > 0 && DEUCE <= from <= ACE + 1
    ensures r.Some? ==> from <= r.value && Count(cards, r.value) == n
    ensures r.Some? ==> forall q: Rank :: from <= q < r.value ==> Count(cards, q) != n
    ensures r.None? ==> forall q: Rank :: from <= q ==> Count(cards, q) != n
    decreases ACE + 1 - from
  {
    if from > ACE then None
    else if Count(cards, from) == n then Some(from)
    else LowestWithExactly(cards, n, from + 1)
  }

  /** The highest rank not above `top` that holds exactly `n` cards (the last hit of an ascending scan). */
  function HighestWithExactly(cards: seq<Card>, n: nat, top: int): (r: Option<Rank>)
    requires n > 0 && DEUCE - 1 <= top <= ACE
    ensures r.Some? ==> r.value <= top && Count(cards, r.value) == n
    ensures r.Some? ==> forall q: Rank :: r.value < q <= top ==> Count(cards, q) != n
    ensures r.None? ==> forall q: Rank :: q <= top ==> Count(cards, q) != n
    decreases top
  {
    if top < DEUCE then None
    else if Count(cards, top) == n then Some(top)
    else HighestWithExactly(cards, n, top - 1)
  }

  /** The rank bucket of `q` sorted by suit. */
  function SuitSortedBucket(cards: seq<Card>, q: Rank): (b: seq<Card>)
    ensures |b| == Count(cards, q)
    ensures forall c :: c in b <==> c in cards && c.rank == q
    ensures Distinct(cards) ==> Distinct(b)
  {
    var b := SortCards(BySuit, WithRank(cards, q));
    assert forall c :: c in b <==> c in multiset(WithRank(cards, q));
    assert Distinct(cards) ==> Distinct(b) by {
      if Distinct(cards) {
        SameCardsKeepDistinct(WithRank(cards, q), b);
      }
    }
    b
  }

  /** A group of `k` different cards of `cards` followed by the `5 - k` highest other cards is a five-card
      hand of different cards of `cards`, when `cards` has five different cards. */
  lemma GroupPlusKickers(cards: seq<Card>, g: seq<Card>)
    requires Distinct(cards) && |cards| >= 5
    requires Distinct(g) && |g| <= 5
    requires forall c :: c in g ==> c in cards
    ensures FiveOf(g + HighestSortedAndExclude(5 - |g|, cards, Some(g)), cards)
  {
    var kickers := HighestSortedAndExclude(5 - |g|, cards, Some(g));
    if |g| > 0 {
      WithoutCount(cards, g);
      assert Remove(cards, Some(g)) == Without(cards, g);
    }
    assert |kickers| == 5 - |g|;
    assert forall c :: c in g ==> c !in kickers;
    DistinctConcat(g, kickers);
    ConcatWithin(g, kickers, cards);
  }

  /** Two lists of cards of `cards` joined are cards of `cards`. */
  lemma ConcatWithin(a: seq<Card>, b: seq<Card>, cards: seq<Card>)
    requires forall c :: c in a ==> c in cards
    requires forall c :: c in b ==> c in cards
    ensures forall c :: c in a + b ==> c in cards
  {
  }

  /** `isFourOfAKind`: the first rank with four cards, in suit order, then the highest other card. */
  function IsFourOfAKind(cards: seq<Card>): (r: Option<GameHand>)
    ensures r.Some? <==> exists q: Rank :: Count(cards, q) == 4
    ensures r.Some? ==> r.value.category == FourOfAKind && |r.value.cards| >= 4
    ensures r.Some? ==>
      && Count(cards, r.value.cards[0].rank) == 4
      && forall k :: 0 <= k < 4 ==> r.value.cards[k].rank == r.value.cards[0].rank
    ensures r.Some? ==> forall q: Rank :: q < r.value.cards[0].rank ==> Count(cards, q) != 4
  {
    match LowestWithExactly(cards, 4, DEUCE)
    case None => None
    case Some(q) =>
      var quad := SuitSortedBucket(cards, q);
      var h := quad + HighestSortedAndExclude(1, cards, Some(quad));
      QuadLeads(cards, q, quad, h);
      Some(GameHand(h, FourOfAKind))
  }

  /** The four cards of rank `q` lead the hand they open. */
  lemma QuadLeads(cards: seq<Card>, q: Rank, quad: seq<Card>, h: seq<Card>)
    requires |quad| == 4 && forall c :: c in quad <==> c in cards && c.rank == q
    requires |h| >= 4 && h[..4] == quad
    ensures |h| >= 4 && h[0].rank == q && forall k :: 0 <= k < 4 ==> h[k].rank == q
  {
    forall k | 0 <= k < 4
      ensures h[k].rank == q
    {
      assert h[k] == h[..4][k] && quad[k] in quad;
    }
  }

  /** Over five or more different cards, four of a kind is five different cards of the input. */
  lemma FourOfAKindWellFormed(cards: seq<Card>)
    requires Distinct(cards) && |cards| >= 5
    ensures IsFourOfAKind(cards).Some? ==> FiveOf(IsFourOfAKind(cards).value.cards, cards)
  {
    var q := LowestWithExactly(cards, 4, DEUCE);
    if q.Some? {
      GroupPlusKickers(cards, SuitSortedBucket(cards, q.value));
    }
  }

  /** Leaving out the cards of one rank leaves the others. */
  lemma {:induction false} WithoutBucketSize(cards: seq<Card>, g: seq<Card>, q: Rank)
    requires forall c :: c in cards ==> (c in g <==> c.rank == q)
    ensures |Without(cards, g)| + Count(cards, q) == |cards|
  {
    if |cards| > 0 {
      WithoutBucketSize(cards[1..], g, q);
      assert cards[0] in cards;
    }
  }

  /** The kickers after a group holding every card of rank `q`: `n` cards of other ranks, highest first, and
      no card of another rank left out outranks one of them. */
  lemma GroupKickers(cards: seq<Card>, q: Rank, g: seq<Card>, n: nat)
    requires |g| > 0
    requires forall c :: c in cards ==> (c in g <==> c.rank == q)
    requires n + Count(cards, q) <= |cards|
    ensures var k := HighestSortedAndExclude(n, cards, Some(g));
      && |k| == n && RankDescending(k)
      && (forall d :: d in k ==> d in cards && d.rank != q)
      && forall c, d :: c in cards && c.rank != q && c !in k && d in k ==> c.rank <= d.rank
  {
    WithoutBucketSize(cards, g, q);
    HighestAreHighest(n, cards, Some(g));
  }

  /** A group of rank `q` followed by kickers of other ranks, highest first: every card of another rank that is
      not a kicker ranks no higher than the last kicker. */
  lemma KickersAfterGroup(cards: seq<Card>, q: Rank, g: seq<Card>, k: seq<Card>)
    requires |g| > 0 && g[0].rank == q && |k| > 0
    requires RankDescending(k) && forall d :: d in k ==> d.rank != q
    requires forall c, d :: c in cards && c.rank != q && c !in k && d in k ==> c.rank <= d.rank
    ensures var h := g + k;
      && h[0].rank == q && h[|g|..] == k
      && (forall i :: |g| <= i < |h| ==> h[i].rank != q && h[i].rank >= h[|h| - 1].rank)
      && forall c :: c in cards && c.rank != q && c !in k ==> c.rank <= h[|h| - 1].rank
  {
    var h := g + k;
    assert h[|h| - 1] == k[|k| - 1] && k[|k| - 1] in k;
    forall i | |g| <= i < |h|
      ensures h[i].rank != q && h[i].rank >= h[|h| - 1].rank
    {
      assert h[i] == k[i - |g|] && k[i - |g|] in k;
    }
  }

  /** The fifth card of four of a kind is the highest card of another rank. */
  lemma FourOfAKindKicker(cards: seq<Card>)
    requires |cards| >= 5
    ensures IsFourOfAKind(cards).Some? ==> var h := IsFourOfAKind(cards).value.cards;
      |h| == 5 && h[4].rank != h[0].rank && forall c :: c in cards && c.rank != h[0].rank ==> c.rank <= h[4].rank
  {
    var found := LowestWithExactly(cards, 4, DEUCE);
    if found.Some? {
      var q := found.value;
      var quad := SuitSortedBucket(cards, q);
      var k := HighestSortedAndExclude(1, cards, Some(quad));
      assert IsFourOfAKind(cards).value.cards == quad + k;
      assert quad[0] in quad;
      GroupKickers(cards, q, quad, 1);
      KickersAfterGroup(cards, q, quad, k);
      var h := quad + k;
      assert |h| == 5 && h[4] == k[0] && k[0] in k;
    }
  }

  /** The last two cards of three of a kind are the two highest cards of other ranks, highest first. */
  lemma ThreeOfAKindKickers(cards: seq<Card>)
    requires |cards| >= 5
    ensures IsThreeOfAKind(cards).Some? ==> var h := IsThreeOfAKind(cards).value.cards;
      && |h| == 5 && h[3].rank != h[0].rank && h[4].rank != h[0].rank && h[3].rank >= h[4].rank
      && forall c :: c in cards && c.rank != h[0].rank && c !in h[3..] ==> c.rank <= h[4].rank
  {
    var found := HighestWithExactly(cards, 3, ACE);
    if found.Some? {
      var q := found.value;
      var trips := SuitSortedBucket(cards, q);
      var k := HighestSortedAndExclude(2, cards, Some(trips));
      assert IsThreeOfAKind(cards).value.cards == trips + k;
      assert trips[0] in trips;
      GroupKickers(cards, q, trips, 2);
      KickersAfterGroup(cards, q, trips, k);
    }
  }

  /** The last three cards of one pair are the three highest cards of other ranks, highest first. */
  lemma OnePairKickers(cards: seq<Card>)
    requires |cards| >= 5
    ensures IsOnePair(cards).Some? ==> var h := IsOnePair(cards).value.cards;
      && |h| == 5 && (forall i :: 2 <= i < 5 ==> h[i].rank != h[0].rank && h[i].rank >= h[4].rank)
      && RankDescending(h[2..])
      && forall c :: c in cards && c.rank != h[0].rank && c !in h[2..] ==> c.rank <= h[4].rank
  {
    var found := OnePairScan(cards, DEUCE, None);
    if found.Some? {
      var q := found.value;
      assert IsOnePair(cards).value.cards ==
        SuitSortedBucket(cards, q) + HighestSortedAndExclude(3, cards, Some(WithRank(cards, q)));
      PairThenKickers(cards, q);
    }
  }

  /** The two cards of a rank with two, then the three highest cards of other ranks. */
  lemma PairThenKickers(cards: seq<Card>, q: Rank)
    requires |cards| >= 5 && Count(cards, q) == 2
    ensures var h := SuitSortedBucket(cards, q) + HighestSortedAndExclude(3, cards, Some(WithRank(cards, q)));
      && |h| == 5 && (forall i :: 2 <= i < 5 ==> h[i].rank != h[0].rank && h[i].rank >= h[4].rank)
      && RankDescending(h[2..])
      && forall c :: c in cards && c.rank != h[0].rank && c !in h[2..] ==> c.rank <= h[4].rank
  {
    var pair := SuitSortedBucket(cards, q);
    var bucket := WithRank(cards, q);
    var k := HighestSortedAndExclude(3, cards, Some(bucket));
    assert pair[0] in pair && bucket[0] in bucket;
    GroupKickers(cards, q, bucket, 3);
    PairAndThreeKickers(cards, q, pair, k);
  }

  /** A pair of rank `q` followed by three kickers of other ranks, highest first. */
  lemma PairAndThreeKickers(cards: seq<Card>, q: Rank, pair: seq<Card>, k: seq<Card>)
    requires |pair| == 2 && pair[0].rank == q && |k| == 3
    requires RankDescending(k) && forall d :: d in k ==> d.rank != q
    requires forall c, d :: c in cards && c.rank != q && c !in k && d in k ==> c.rank <= d.rank
    ensures var h := pair + k;
      && |h| == 5 && (forall i :: 2 <= i < 5 ==> h[i].rank != h[0].rank && h[i].rank >= h[4].rank)
      && RankDescending(h[2..])
      && forall c :: c in cards && c.rank != h[0].rank && c !in h[2..] ==> c.rank <= h[4].rank
  {
    KickersAfterGroup(cards, q, pair, k);
  }

  /** A non-empty result of `getHighestOfSameRank` is `noof` cards of one rank that has at least `noof`. */
  lemma GroupShape(noof: nat, cards: seq<Card>)
    requires noof > 0
    ensures var g := HighestOfSameRank(noof, cards);
      |g| > 0 ==> |g| == noof && Count(cards, g[0].rank) >= noof && forall k :: 0 <= k < |g| ==> g[k].rank == g[0].rank
  {
    var g := HighestOfSameRank(noof, cards);
    if |g| > 0 {
      assert forall k :: 0 <= k < |g| ==> g[k] in g;
    }
  }

  /** The same for `getHighestOfSameRankExcluding`, whose rank is never the excluded one. */
  lemma ExcludingGroupShape(noof: nat, cards: seq<Card>, excluded: Rank)
    requires noof > 0
    ensures var g := HighestOfSameRankExcluding(noof, cards, excluded);
      |g| > 0 ==>
        && |g| == noof && Count(cards, g[0].rank) >= noof && g[0].rank != excluded
        && forall k :: 0 <= k < |g| ==> g[k].rank == g[0].rank
  {
    var g := HighestOfSameRankExcluding(noof, cards, excluded);
    if |g| > 0 {
      assert forall k :: 0 <= k < |g| ==> g[k] in g;
    }
  }

  /** The three of the highest rank with three cards and the two of the highest other rank with two cards
      make a full house of cards of `cards`. */
  lemma FullHouseShape(cards: seq<Card>, three: seq<Card>, two: seq<Card>)
    requires three == HighestOfSameRank(3, cards) && |three| > 0
    requires two == HighestOfSameRankExcluding(2, cards, three[0].rank) && |two| > 0
    ensures var h := three + two;
      && |h| == 5
      && (forall k :: 0 <= k < 3 ==> h[k].rank == h[0].rank)
      && (forall k :: 3 <= k < 5 ==> h[k].rank == h[3].rank)
      && h[0].rank != h[3].rank
      && Count(cards, h[0].rank) >= 3 && Count(cards, h[3].rank) >= 2
      && forall c :: c in h ==> c in cards
    ensures var h := three + two;
      && (forall q: Rank :: q > h[0].rank ==> Count(cards, q) < 3)
      && (forall q: Rank :: q > h[3].rank && q != h[0].rank ==> Count(cards, q) < 2)
  {
    GroupShape(3, cards);
    ExcludingGroupShape(2, cards, three[0].rank);
    JoinGroups(cards, three, two);
    HighestGroups(cards, three, two, 3);
  }

  /** The ranks of two groups read back from the hand they make: no rank above the first holds `n` cards,
      and no other rank above the second holds two. */
  lemma HighestGroups(cards: seq<Card>, first: seq<Card>, second: seq<Card>, n: nat)
    requires |first| == n && 2 <= n <= 3 && |second| == 2
    requires forall q: Rank :: q > first[0].rank ==> !Qualifies(cards, n, q)
    requires forall q: Rank :: q > second[0].rank && q != first[0].rank ==> !Qualifies(cards, 2, q)
    ensures var h := first + second;
      && h[0] == first[0] && h[n] == second[0]
      && (forall q: Rank :: q > h[0].rank ==> Count(cards, q) < n)
      && (forall q: Rank :: q > h[n].rank && q != h[0].rank ==> Count(cards, q) < 2)
  {
    var h := first + second;
    assert h[0] == first[0] && h[n] == second[0];
    forall q: Rank
      ensures q > h[0].rank ==> Count(cards, q) < n
      ensures q > h[n].rank && q != h[0].rank ==> Count(cards, q) < 2
    {
      assert q > h[0].rank ==> !Qualifies(cards, n, q);
      assert q > h[n].rank && q != h[0].rank ==> !Qualifies(cards, 2, q);
    }
  }

  /** Two groups of different ranks side by side. */
  lemma JoinGroups(cards: seq<Card>, three: seq<Card>, two: seq<Card>)
    requires |three| == 3 && |two| == 2 && three[0].rank != two[0].rank
    requires forall k :: 0 <= k < 3 ==> three[k].rank == three[0].rank
    requires forall k :: 0 <= k < 2 ==> two[k].rank == two[0].rank
    requires Count(cards, three[0].rank) >= 3 && Count(cards, two[0].rank) >= 2
    requires forall c :: c in three ==> c in cards
    requires forall c :: c in two ==> c in cards
    ensures var h := three + two;
      && |h| == 5
      && (forall k :: 0 <= k < 3 ==> h[k].rank == h[0].rank)
      && (forall k :: 3 <= k < 5 ==> h[k].rank == h[3].rank)
      && h[0].rank != h[3].rank
      && Count(cards, h[0].rank) >= 3 && Count(cards, h[3].rank) >= 2
      && forall c :: c in h ==> c in cards
  {
    var h := three + two;
    assert forall k :: 0 <= k < 3 ==> h[k] == three[k];
    assert forall k :: 3 <= k < 5 ==> h[k] == two[k - 3];
  }

  /** `isFullHouse`: three cards of the highest rank with at least three, then two cards of the highest
      other rank with at least two. */
  function IsFullHouse(cards: seq<Card>): (r: Option<GameHand>)
    ensures r.Some? ==> r.value.category == FullHouse && |r.value.cards| == 5
    ensures r.Some? ==> var h := r.value.cards;
      && (forall k :: 0 <= k < 3 ==> h[k].rank == h[0].rank)
      && (forall k :: 3 <= k < 5 ==> h[k].rank == h[3].rank)
      && h[0].rank != h[3].rank
      && Count(cards, h[0].rank) >= 3 && Count(cards, h[3].rank) >= 2
    ensures r.Some? ==> forall c :: c in r.value.cards ==> c in cards
    ensures r.Some? ==> var h := r.value.cards;
      && (forall q: Rank :: q > h[0].rank ==> Count(cards, q) < 3)
      && (forall q: Rank :: q > h[3].rank && q != h[0].rank ==> Count(cards, q) < 2)
  {
    var three := HighestOfSameRank(3, cards);
    if |three| == 0 then None
    else
      var two := HighestOfSameRankExcluding(2, cards, three[0].rank);
      if |two| == 0 then None
      else
        FullHouseShape(cards, three, two);
        Some(GameHand(three + two, FullHouse))
  }

  /** A full house is found exactly when one rank has three cards and another has two. */
  lemma FullHouseIff(cards: seq<Card>)
    ensures IsFullHouse(cards).Some? <==>
      exists q: Rank, p: Rank :: q != p && Count(cards, q) >= 3 && Count(cards, p) >= 2
  {
    var three := HighestOfSameRank(3, cards);
    if q: Rank, p: Rank :| q != p && Count(cards, q) >= 3 && Count(cards, p) >= 2 {
      assert Qualifies(cards, 3, q);
      var top := three[0].rank;
      if p != top {
        assert Qualifies(cards, 2, p);
      } else {
        assert Qualifies(cards, 2, q);
      }
    }
  }

  /** A full house over different cards is five different cards. */
  lemma FullHouseWellFormed(cards: seq<Card>)
    requires Distinct(cards)
    ensures IsFullHouse(cards).Some? ==> FiveOf(IsFullHouse(cards).value.cards, cards)
  {
    var three := HighestOfSameRank(3, cards);
    if |three| > 0 {
      var two := HighestOfSameRankExcluding(2, cards, three[0].rank);
      DistinctConcat(three, two);
    }
  }

  /** `isThreeOfAKind`: the highest rank with exactly three cards, in suit order, then the two highest other
      cards. */
  function IsThreeOfAKind(cards: seq<Card>): (r: Option<GameHand>)
    ensures r.Some? <==> exists q: Rank :: Count(cards, q) == 3
    ensures r.Some? ==> r.value.category == ThreeOfAKind && |r.value.cards| >= 3
    ensures r.Some? ==>
      && Count(cards, r.value.cards[0].rank) == 3
      && (forall k :: 0 <= k < 3 ==> r.value.cards[k].rank == r.value.cards[0].rank)
      && (forall q: Rank :: q > r.value.cards[0].rank ==> Count(cards, q) != 3)
  {
    match HighestWithExactly(cards, 3, ACE)
    case None => None
    case Some(q) =>
      var trips := SuitSortedBucket(cards, q);
      var kickers := HighestSortedAndExclude(2, cards, Some(trips));
      TripsLead(cards, q, kickers);
      Some(GameHand(trips + kickers, ThreeOfAKind))
  }

  /** The three cards of rank `q` lead whatever follows them. */
  lemma TripsLead(cards: seq<Card>, q: Rank, rest: seq<Card>)
    requires Count(cards, q) == 3
    ensures var h := SuitSortedBucket(cards, q) + rest;
      |h| >= 3 && h[0].rank == q && forall k :: 0 <= k < 3 ==> h[k].rank == q
  {
    var trips := SuitSortedBucket(cards, q);
    var h := trips + rest;
    assert forall k :: 0 <= k < 3 ==> h[k] == trips[k] && trips[k] in trips;
  }

  lemma ThreeOfAKindWellFormed(cards: seq<Card>)
    requires Distinct(cards) && |cards| >= 5
    ensures IsThreeOfAKind(cards).Some? ==> FiveOf(IsThreeOfAKind(cards).value.cards, cards)
  {
    var q := HighestWithExactly(cards, 3, ACE);
    if q.Some? {
      GroupPlusKickers(cards, SuitSortedBucket(cards, q.value));
    }
  }

  /** `isTwoPairs`: the highest pair, the next pair, then the highest other card. */
  function IsTwoPairs(cards: seq<Card>): (r: Option<GameHand>)
    ensures r.Some? ==> r.value.category == TwoPairs && |r.value.cards| >= 4
    ensures r.Some? ==> var h := r.value.cards;
      && h[0].rank == h[1].rank && h[2].rank == h[3].rank && h[0].rank > h[2].rank
      && Count(cards, h[0].rank) >= 2 && Count(cards, h[2].rank) >= 2
    ensures r.Some? ==> var h := r.value.cards;
      && (forall q: Rank :: q > h[0].rank ==> Count(cards, q) < 2)
      && (forall q: Rank :: q > h[2].rank && q != h[0].rank ==> Count(cards, q) < 2)
  {
    var high := HighestOfSameRank(2, cards);
    if |high| == 0 then None
    else
      var next := HighestOfSameRankExcluding(2, cards, high[0].rank);
      if |next| == 0 then None
      else
        var pairs := high + next;
        var kicker := HighestSortedAndExclude(1, cards, Some(pairs));
        TwoPairsShape(cards, high, next, kicker);
        Some(GameHand(pairs + kicker, TwoPairs))
  }

  /** The highest pair, then the highest pair of another rank, lead whatever follows them. */
  lemma TwoPairsShape(cards: seq<Card>, high: seq<Card>, next: seq<Card>, rest: seq<Card>)
    requires high == HighestOfSameRank(2, cards) && |high| > 0
    requires next == HighestOfSameRankExcluding(2, cards, high[0].rank) && |next| > 0
    ensures var h := high + next + rest;
      && |h| >= 4
      && h[0].rank == h[1].rank && h[2].rank == h[3].rank && h[0].rank > h[2].rank
      && Count(cards, h[0].rank) >= 2 && Count(cards, h[2].rank) >= 2
    ensures var h := high + next + rest;
      && (forall q: Rank :: q > h[0].rank ==> Count(cards, q) < 2)
      && (forall q: Rank :: q > h[2].rank && q != h[0].rank ==> Count(cards, q) < 2)
  {
    PairRanksOrdered(cards, high, next);
    JoinPairs(high, next, rest);
    HighestGroups(cards, high, next, 2);
  }

  /** The second pair ranks below the first. */
  lemma PairRanksOrdered(cards: seq<Card>, high: seq<Card>, next: seq<Card>)
    requires high == HighestOfSameRank(2, cards) && |high| > 0
    requires next == HighestOfSameRankExcluding(2, cards, high[0].rank) && |next| > 0
    ensures |high| == 2 && |next| == 2
    ensures high[1].rank == high[0].rank && next[1].rank == next[0].rank && next[0].rank < high[0].rank
    ensures Count(cards, high[0].rank) >= 2 && Count(cards, next[0].rank) >= 2
  {
    GroupShape(2, cards);
    ExcludingGroupShape(2, cards, high[0].rank);
    assert Qualifies(cards, 2, next[0].rank);
  }

  lemma JoinPairs(a: seq<Card>, b: seq<Card>, rest: seq<Card>)
    requires |a| == 2 && |b| == 2
    ensures var h := a + b + rest; |h| >= 4 && h[0] == a[0] && h[1] == a[1] && h[2] == b[0] && h[3] == b[1]
  {
  }

  /** Two pairs are found exactly when two different ranks have at least two cards each. */
  lemma TwoPairsIff(cards: seq<Card>)
    ensures IsTwoPairs(cards).Some? <==>
      exists q: Rank, p: Rank :: q != p && Count(cards, q) >= 2 && Count(cards, p) >= 2
  {
    var high := HighestOfSameRank(2, cards);
    if q: Rank, p: Rank :| q != p && Count(cards, q) >= 2 && Count(cards, p) >= 2 {
      assert Qualifies(cards, 2, q);
      var top := high[0].rank;
      if p != top {
        assert Qualifies(cards, 2, p);
      } else {
        assert Qualifies(cards, 2, q);
      }
    }
  }

  lemma TwoPairsWellFormed(cards: seq<Card>)
    requires Distinct(cards) && |cards| >= 5
    ensures IsTwoPairs(cards).Some? ==> FiveOf(IsTwoPairs(cards).value.cards, cards)
  {
    var high := HighestOfSameRank(2, cards);
    if |high| > 0 {
      var next := HighestOfSameRankExcluding(2, cards, high[0].rank);
      if |next| > 0 {
        DistinctConcat(high, next);
        GroupPlusKickers(cards, high + next);
      }
    }
  }

  /** The fifth card of two pairs is the highest card left once the four pair cards are taken out. */
  lemma TwoPairsKicker(cards: seq<Card>)
    requires Distinct(cards) && |cards| >= 5
    ensures IsTwoPairs(cards).Some? ==> var h := IsTwoPairs(cards).value.cards;
      |h| == 5 && forall c :: c in cards && c !in h[..4] ==> c.rank <= h[4].rank
  {
    var high := HighestOfSameRank(2, cards);
    if |high| > 0 {
      var next := HighestOfSameRankExcluding(2, cards, high[0].rank);
      if |next| > 0 {
        var pairs := high + next;
        var k := HighestSortedAndExclude(1, cards, Some(pairs));
        assert IsTwoPairs(cards).value.cards == pairs + k;
        PairRanksOrdered(cards, high, next);
        DistinctConcat(high, next);
        WithoutCount(cards, pairs);
        HighestAreHighest(1, cards, Some(pairs));
        LastAfterFour(cards, pairs, k);
      }
    }
  }

  /** Four cards and one more, where every other card of `cards` ranks no higher than the last. */
  lemma LastAfterFour(cards: seq<Card>, pairs: seq<Card>, k: seq<Card>)
    requires |pairs| == 4 && |k| == 1
    requires forall c :: c in cards && c !in pairs && c !in k ==> c.rank <= k[0].rank
    ensures var h := pairs + k; |h| == 5 && h[..4] == pairs && h[4] == k[0]
    ensures var h := pairs + k; forall c :: c in cards && c !in h[..4] ==> c.rank <= h[4].rank
  {
    var h := pairs + k;
    assert h[..4] == pairs && h[4] == k[0];
  }

  /** The ranks at or above `from` hold at most one card each. */
  ghost predicate NoPairFrom(cards: seq<Card>, from: int) {
    forall p: Rank :: from <= p ==> Count(cards, p) <= 1
  }

  /** `q` is the only rank at or above `from` with two or more cards, and it has exactly two. */
  ghost predicate OnlyPairFrom(cards: seq<Card>, from: int, q: Rank) {
    from <= q && Count(cards, q) == 2 && forall p: Rank :: from <= p && p != q ==> Count(cards, p) <= 1
  }

  /** The ascending scan of `isOnePair` from rank `from`, with `found` the pair seen so far: it gives up on
      a second pair or on any rank with more than two cards. */
  function OnePairScan(cards: seq<Card>, from: int, found: Option<Rank>): (r: Option<Rank>)
    requires DEUCE <= from <= ACE + 1
    requires found.Some? ==> found.value < from && Count(cards, found.value) == 2
    ensures r.Some? ==> Count(cards, r.value) == 2 && forall p: Rank :: from <= p && p != r.value ==> Count(cards, p) <= 1
    ensures found.Some? ==> (r.Some? <==> NoPairFrom(cards, from)) && (r.Some? ==> r == found)
    ensures found.None? ==> (r.Some? <==> exists q: Rank :: OnlyPairFrom(cards, from, q))
    decreases ACE + 1 - from
  {
    if from > ACE then found
    else if Count(cards, from) == 2 then
      if found.Some? then None
      else
        var r := OnePairScan(cards, from + 1, Some(from));
        assert r.Some? ==> OnlyPairFrom(cards, from, from);
        assert (exists q: Rank :: OnlyPairFrom(cards, from, q)) ==> NoPairFrom(cards, from + 1);
        r
    else if Count(cards, from) > 2 then None
    else
      var r := OnePairScan(cards, from + 1, found);
      assert found.None? ==> (r.Some? <==> exists q: Rank :: OnlyPairFrom(cards, from, q)) by {
        if found.None? {
          if r.Some? {
            var q: Rank :| OnlyPairFrom(cards, from + 1, q);
            assert OnlyPairFrom(cards, from, q);
          }
          if q: Rank :| OnlyPairFrom(cards, from, q) {
            assert OnlyPairFrom(cards, from + 1, q);
          }
        }
      }
      r
  }

  /** Every rank is at or above the deuce. */
  lemma OnlyPairFromDeuce(cards: seq<Card>)
    ensures (exists q: Rank :: OnlyPairFrom(cards, DEUCE, q)) <==>
      exists q: Rank :: Count(cards, q) == 2 && forall p: Rank :: p != q ==> Count(cards, p) <= 1
  {
    if q: Rank :| Count(cards, q) == 2 && forall p: Rank :: p != q ==> Count(cards, p) <= 1 {
      assert OnlyPairFrom(cards, DEUCE, q);
    }
  }

  /** `isOnePair`: the one rank with two cards, in suit order, then the three highest other cards; only
      when no other rank has two or more cards. */
  function IsOnePair(cards: seq<Card>): (r: Option<GameHand>)
    ensures r.Some? <==> exists q: Rank :: Count(cards, q) == 2 && forall p: Rank :: p != q ==> Count(cards, p) <= 1
    ensures r.Some? ==> r.value.category == OnePair && |r.value.cards| >= 2
    ensures r.Some? ==> r.value.cards[0].rank == r.value.cards[1].rank && Count(cards, r.value.cards[0].rank) == 2
  {
    OnlyPairFromDeuce(cards);
    match OnePairScan(cards, DEUCE, None)
    case None => None
    case Some(q) =>
      var pair := SuitSortedBucket(cards, q);
      assert pair[0] in pair && pair[1] in pair;
      Some(GameHand(pair + HighestSortedAndExclude(3, cards, Some(WithRank(cards, q))), OnePair))
  }

  lemma OnePairWellFormed(cards: seq<Card>)
    requires Distinct(cards) && |cards| >= 5
    ensures IsOnePair(cards).Some? ==> FiveOf(IsOnePair(cards).value.cards, cards)
  {
    var q := OnePairScan(cards, DEUCE, None);
    if q.Some? {
      var pair := SuitSortedBucket(cards, q.value);
      RemoveSameMembers(cards, pair, WithRank(cards, q.value));
      GroupPlusKickers(cards, pair);
    }
  }

  /** `isHighHand`: the five highest cards, highest first. */
  function IsHighHand(cards: seq<Card>): (h: GameHand)
    ensures h.category == HighHand && |h.cards| == if |cards| < 5 then |cards| else 5
    ensures forall c :: c in h.cards ==> c in cards
    ensures RankDescending(h.cards)
    ensures forall c, d :: c in cards && c !in h.cards && d in h.cards ==> c.rank <= d.rank
    ensures Distinct(cards) ==> Distinct(h.cards)
  {
    HighestAreHighest(5, cards, None);
    GameHand(HighestSortedAndExclude(5, cards, None), HighHand)
  }

  /* ---------------------------------------------------------------- the priority chain */

  /** `getBestHand` over the merged cards: the first category check that succeeds, in the order royal
      flush, straight flush, flush (these three only on a suit of five or more), four of a kind, full house,
      straight, three of a kind, two pairs, one pair; a high hand otherwise. The run search in the straight
      check reads the highest card, so it fails on an empty list. */
  function BestHandOf(cards: seq<Card>): (r: Result<GameHand>)
    ensures r.Failure? <==> |cards| == 0
    ensures r.Failure? ==> r.error == IndexOutOfBounds
    ensures r.Success? && r.value.category in {RoyalFlush, StraightFlush, Flush} ==> SuitOfFiveCards(cards).Some?
    ensures r.Success? && r.value.category == HighHand ==>
      && SuitOfFiveCards(cards).None?
      && NoRunLonger(AceExtended(cards), 4)
      && (forall q: Rank :: Count(cards, q) != 3 && Count(cards, q) != 4)
  {
    var suited := SuitOfFiveCards(cards);
    if suited.Some? && IsRoyalFlush(suited.value).Some? then Success(IsRoyalFlush(suited.value).value)
    else if suited.Some? && IsStraightFlush(suited.value).Some? then Success(IsStraightFlush(suited.value).value)
    else if suited.Some? then Success(IsFlush(suited.value))
    else if IsFourOfAKind(cards).Some? then Success(IsFourOfAKind(cards).value)
    else if IsFullHouse(cards).Some? then Success(IsFullHouse(cards).value)
    else if |cards| == 0 then Failure(IndexOutOfBounds)
    else if IsStraight(cards).Some? then Success(IsStraight(cards).value)
    else if IsThreeOfAKind(cards).Some? then Success(IsThreeOfAKind(cards).value)
    else if IsTwoPairs(cards).Some? then Success(IsTwoPairs(cards).value)
    else if IsOnePair(cards).Some? then Success(IsOnePair(cards).value)
    else Success(IsHighHand(cards))
  }

  /** `getBestHand` for community and pocket cards, either of which may be null. */
  function BestHand(community: Option<seq<Card>>, pocket: Option<seq<Card>>): (r: Result<GameHand>)
    ensures r.Success? <==> |Merge(community, pocket)| > 0
  {
    BestHandOf(Merge(community, pocket))
  }

  /** From five to seven different cards the best hand is five different cards of the input. */
  lemma BestHandWellFormed(cards: seq<Card>)
    requires Distinct(cards) && 5 <= |cards| <= 7
    ensures BestHandOf(cards).Success? && FiveOf(BestHandOf(cards).value.cards, cards)
  {
    var suited := SuitOfFiveCards(cards);
    if suited.Some? {
      var s := suited.value;
      assert forall c :: c in s ==> c in cards;
      assert Distinct(s);
      if IsRoyalFlush(s).None? && IsStraightFlush(s).Some? {
        StraightWellFormed(s, StraightFlush);
      }
    }
    FourOfAKindWellFormed(cards);
    FullHouseWellFormed(cards);
    StraightWellFormed(cards, Straight);
    ThreeOfAKindWellFormed(cards);
    TwoPairsWellFormed(cards);
    OnePairWellFormed(cards);
  }

  lemma StraightWellFormed(cards: seq<Card>, category: Category)
    requires |cards| > 0
    ensures StraightOf(cards, category).Some? ==> FiveOf(StraightOf(cards, category).value.cards, cards)
  {
  }

  /** A high hand from different cards means that no rank has two cards. */
  lemma HighHandMeansNoPair(cards: seq<Card>)
    requires Distinct(cards)
    requires BestHandOf(cards).Success? && BestHandOf(cards).value.category == HighHand
    ensures forall q: Rank :: Count(cards, q) <= 1
  {
    HighHandChecksFail(cards);
    forall q: Rank
      ensures Count(cards, q) <= 1
    {
      PairFindsAGroup(cards, q);
    }
  }

  /** Two or more different cards of one rank make one of the four rank-based checks succeed. */
  lemma PairFindsAGroup(cards: seq<Card>, q: Rank)
    requires Distinct(cards)
    ensures Count(cards, q) >= 2 ==>
      IsFourOfAKind(cards).Some? || IsThreeOfAKind(cards).Some? || IsTwoPairs(cards).Some? || IsOnePair(cards).Some?
  {
    CountAtMostFour(cards, q);
    TwoPairsIff(cards);
  }

  /** A high hand is reached only when the four rank-based checks before it all fail. */
  lemma HighHandChecksFail(cards: seq<Card>)
    requires BestHandOf(cards).Success? && BestHandOf(cards).value.category == HighHand
    ensures IsFourOfAKind(cards).None? && IsThreeOfAKind(cards).None?
    ensures IsTwoPairs(cards).None? && IsOnePair(cards).None?
  {
    var best := BestHandOf(cards).value;
    assert SuitOfFiveCards(cards).None?;
    assert IsFourOfAKind(cards).Some? ==> best.category == FourOfAKind;
    assert IsFullHouse(cards).Some? ==> best.category == FullHouse;
    assert IsStraight(cards).Some? ==> best.category != HighHand;
    assert IsThreeOfAKind(cards).Some? ==> best.category != HighHand;
    assert IsTwoPairs(cards).Some? ==> best.category != HighHand;
    assert IsOnePair(cards).Some? ==> best.category != HighHand;
  }

  /** Over different cards of one suit the royal-flush check succeeds exactly when every rank from TEN to
      ACE is present. */
  lemma RoyalFlushIff(suited: seq<Card>)
    requires |suited| > 4 && Distinct(suited)
    requires forall c :: c in suited ==> c.suit == suited[0].suit
    ensures IsRoyalFlush(suited).Some? <==> forall q: Rank :: q >= TEN ==> Count(suited, q) > 0
  {
    var r := IsRoyalFlush(suited);
    if r.Some? {
      BroadwayRanks(r.value.cards);
      BroadwayPresent(r.value.cards, suited);
    } else if forall q: Rank :: q >= TEN ==> Count(suited, q) > 0 {
      RoyalFlushFromRanks(suited);
    }
  }

  lemma BroadwayPresent(top: seq<Card>, suited: seq<Card>)
    requires |top| == 5 && Broadway(top) && forall c :: c in top ==> c in suited
    ensures forall q: Rank :: q >= TEN ==> Count(suited, q) > 0
  {
    forall q: Rank | q >= TEN
      ensures Count(suited, q) > 0
    {
      var c := top[ACE - q];
      assert c in top && c.rank == q;
      assert c in WithRank(suited, q);
    }
  }

  /** The first category, in order of priority, whose condition holds. */
  function ChainCategory(royal: bool, straightFlush: bool, flush: bool, four: bool, fullHouse: bool,
                         straight: bool, three: bool, twoPairs: bool, onePair: bool): Category
  {
    if royal then RoyalFlush
    else if straightFlush then StraightFlush
    else if flush then Flush
    else if four then FourOfAKind
    else if fullHouse then FullHouse
    else if straight then Straight
    else if three then ThreeOfAKind
    else if twoPairs then TwoPairs
    else if onePair then OnePair
    else HighHand
  }

  /** Every rank from TEN to ACE is present. */
  ghost predicate HasBroadway(cards: seq<Card>) {
    forall q: Rank :: q >= TEN ==> Count(cards, q) > 0
  }

  /** Some run of five ranks, the ACE also counting as a one. */
  ghost predicate HasFiveRun(cards: seq<Card>)
    requires |cards| > 0
  {
    !NoRunLonger(AceExtended(cards), 4)
  }

  /** Some rank has exactly `n` cards. */
  ghost predicate HasExactly(cards: seq<Card>, n: nat) {
    exists q: Rank :: Count(cards, q) == n
  }

  /** Two different ranks have at least `n` and at least two cards. */
  ghost predicate HasTwoGroups(cards: seq<Card>, n: nat) {
    exists q: Rank, p: Rank :: q != p && Count(cards, q) >= n && Count(cards, p) >= 2
  }

  /** One rank has exactly two cards and every other at most one. */
  ghost predicate HasOnlyOnePair(cards: seq<Card>) {
    exists q: Rank :: Count(cards, q) == 2 && forall p: Rank :: p != q ==> Count(cards, p) <= 1
  }

  /** The category of the best hand, stated by what the cards hold rather than by the checks: a suit of
      five or more decides among the three flushes; below that come four of a kind, a full house, a run of
      five ranks, three of a kind, two pairs, one pair and a high hand, in that order. */
  ghost function ExpectedCategory(cards: seq<Card>): Category
    requires |cards| > 0
  {
    var s := SuitOfFiveCards(cards);
    ChainCategory(
      s.Some? && HasBroadway(s.value), s.Some? && HasFiveRun(s.value), s.Some?,
      HasExactly(cards, 4), HasTwoGroups(cards, 3), HasFiveRun(cards),
      HasExactly(cards, 3), HasTwoGroups(cards, 2), HasOnlyOnePair(cards))
  }

  /** `getBestHand` returns the category of the first check that succeeds. */
  lemma ChainOfChecks(cards: seq<Card>)
    requires |cards| > 0
    ensures var s := SuitOfFiveCards(cards);
      BestHandOf(cards).Success? && BestHandOf(cards).value.category == ChainCategory(
        s.Some? && IsRoyalFlush(s.value).Some?, s.Some? && IsStraightFlush(s.value).Some?, s.Some?,
        IsFourOfAKind(cards).Some?, IsFullHouse(cards).Some?, IsStraight(cards).Some?,
        IsThreeOfAKind(cards).Some?, IsTwoPairs(cards).Some?, IsOnePair(cards).Some?)
  {
  }

  /** The three flush checks against what the suit of five holds. */
  lemma SuitedChecks(cards: seq<Card>)
    requires Distinct(cards)
    ensures var s := SuitOfFiveCards(cards);
      && (s.Some? && IsRoyalFlush(s.value).Some?) == (s.Some? && HasBroadway(s.value))
      && (s.Some? && IsStraightFlush(s.value).Some?) == (s.Some? && HasFiveRun(s.value))
  {
    var s := SuitOfFiveCards(cards);
    if s.Some? {
      assert forall c :: c in s.value ==> c in cards && c.suit == s.value[0].suit;
      RoyalFlushIff(s.value);
    }
  }

  /** Four of a kind, the straight, three of a kind and one pair against what the cards hold. */
  lemma GroupChecks(cards: seq<Card>)
    requires |cards| > 0
    ensures IsFourOfAKind(cards).Some? == HasExactly(cards, 4)
    ensures IsStraight(cards).Some? == HasFiveRun(cards)
    ensures IsThreeOfAKind(cards).Some? == HasExactly(cards, 3)
    ensures IsOnePair(cards).Some? == HasOnlyOnePair(cards)
  {
  }

  /** The full-house and two-pairs checks against what the cards hold. */
  lemma TwoGroupChecks(cards: seq<Card>)
    ensures IsFullHouse(cards).Some? == HasTwoGroups(cards, 3)
    ensures IsTwoPairs(cards).Some? == HasTwoGroups(cards, 2)
  {
    FullHouseIff(cards);
    TwoPairsIff(cards);
  }

  /** The priority chain of `getBestHand` picks the expected category for any non-empty list of different
      cards. */
  lemma BestHandCategory(cards: seq<Card>)
    requires |cards| > 0 && Distinct(cards)
    ensures BestHandOf(cards).Success? && BestHandOf(cards).value.category == ExpectedCategory(cards)
  {
    ChainOfChecks(cards);
    SuitedChecks(cards);
    GroupChecks(cards);
    TwoGroupChecks(cards);
  }
}
