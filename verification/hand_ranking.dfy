/** The post-flop ranking service: it keeps the cards not yet seen and a cache of rankings keyed by the
    number of known cards, and ranks the real hand among the best hands of every possible opponent pair. */
module HandRankingService {
  import opened Wrappers
  import opened Cards
  import opened CardListUtils
  import opened PokerHands
  import opened HandOrder

  /** A ranking: the real hand, its percentile among all pairs, and how many pocket cards it uses. */
  datatype HandRanking = HandRanking(hand: GameHand, rankingValue: int, pocketCardsInPokerHand: nat)

  /** The service state: the pool of cards not known to be dealt, and the cache. */
  datatype ServiceState = ServiceState(pool: set<Card>, cache: map<int, HandRanking>)

  /** A new service, and `resetDeck`: all 52 cards back in the pool and an empty cache. */
  function Fresh(): (s: ServiceState)
    ensures |s.pool| == 52 && forall c: Card :: c in s.pool
    ensures s.cache == map[]
  {
    ServiceState(FullDeck(), map[])
  }

  /* ---------------------------------------------------------------- the pool as a list */

  /** The cards of `d` that are in `pool`, in the order of `d`. */
  function InOrder(d: seq<Card>, pool: set<Card>): (a: seq<Card>)
    ensures forall c :: c in a <==> c in d && c in pool
    ensures Distinct(d) ==> Distinct(a)
  {
    if |d| == 0 then [] else (if d[0] in pool then [d[0]] else []) + InOrder(d[1..], pool)
  }

  /** The pool as an array. The iteration order of the hash set is not fixed; deck order stands in for
      it. */
  function PoolOrder(pool: set<Card>): (a: seq<Card>)
    ensures Distinct(a)
    ensures forall c :: c in a <==> c in pool
  {
    var lowest := 2;
    var d := DeckFrom(lowest);
    assert forall c: Card :: c in d;
    InOrder(d, pool)
  }

  /** The array holds each card of the pool once. */
  lemma PoolOrderSize(pool: set<Card>)
    ensures |PoolOrder(pool)| == |pool|
  {
    var a := PoolOrder(pool);
    assert Elems(a) == pool;
    DistinctElemsCardinality(a);
  }

  /* ---------------------------------------------------------------- opponent pairs */

  function PairsWith(c: Card, rest: seq<Card>): (ps: seq<(Card, Card)>)
    ensures |ps| == |rest|
    ensures forall k :: 0 <= k < |rest| ==> ps[k] == (c, rest[k])
  {
    seq(|rest|, k requires 0 <= k < |rest| => (c, rest[k]))
  }

  /** The double loop of `getRanking`: `(a[i], a[j])` for every `i < j`, outer index first. */
  function Pairs(a: seq<Card>): seq<(Card, Card)> {
    if |a| == 0 then [] else PairsWith(a[0], a[1..]) + Pairs(a[1..])
  }

  /** Every pair is made of cards of `a`. */
  lemma {:induction false} PairsFrom(a: seq<Card>)
    ensures forall p :: p in Pairs(a) ==> p.0 in a && p.1 in a
  {
    if |a| > 0 {
      PairsFrom(a[1..]);
      assert forall p :: p in PairsWith(a[0], a[1..]) ==> p.0 in a && p.1 in a;
    }
  }

  /** There are `m(m-1)/2` pairs of `m` cards. */
  lemma {:induction false} PairsCount(a: seq<Card>)
    ensures 2 * |Pairs(a)| == |a| * (|a| - 1)
  {
    if |a| > 0 {
      PairsCount(a[1..]);
      PairCountStep(|a|);
    }
  }

  /** Adding a card to `n - 1` cards adds `n - 1` pairs. */
  lemma PairCountStep(n: int)
    ensures n * (n - 1) == (n - 1) * (n - 2) + 2 * (n - 1)
  {
  }

  /** Every pair of positions `i < j` is enumerated. */
  lemma {:induction false} PairsCover(a: seq<Card>, i: int, j: int)
    requires 0 <= i < j < |a|
    ensures (a[i], a[j]) in Pairs(a)
  {
    var head := PairsWith(a[0], a[1..]);
    var rest := Pairs(a[1..]);
    assert Pairs(a) == head + rest;
    if i == 0 {
      assert (head + rest)[j - 1] == head[j - 1] == (a[0], a[1..][j - 1]);
    } else {
      PairsCover(a[1..], i - 1, j - 1);
      var k :| 0 <= k < |rest| && rest[k] == (a[1..][i - 1], a[1..][j - 1]);
      assert (head + rest)[|head| + k] == rest[k];
    }
  }

  /** The pairs of different cards are pairs of different cards. */
  lemma {:induction false} PairsDistinct(a: seq<Card>)
    requires Distinct(a)
    ensures forall p :: p in Pairs(a) ==> p.0 != p.1
  {
    if |a| > 0 {
      PairsDistinct(a[1..]);
      assert a[0] !in a[1..];
    }
  }

  /** The best hand of each opponent pair with the community cards. */
  function OpponentHands(community: seq<Card>, ps: seq<(Card, Card)>): (hs: seq<GameHand>)
    ensures |hs| == |ps|
    ensures forall k :: 0 <= k < |ps| ==> hs[k] == BestHandOf(community + [ps[k].0, ps[k].1]).value
  {
    seq(|ps|, k requires 0 <= k < |ps| => BestHandOf(community + [ps[k].0, ps[k].1]).value)
  }

  /* ---------------------------------------------------------------- stable sort and identity index */

  /** A hand in the list to be sorted; `mine` marks the real hand, which `indexOf` finds by identity. */
  datatype Entry = Entry(hand: GameHand, mine: bool)

  /** Every hand in the list has five cards, so any two can be compared. */
  predicate AllFive(s: seq<Entry>) {
    forall k :: 0 <= k < |s| ==> |s[k].hand.cards| == 5
  }

  /** `a` is at most `b` in the hand order. */
  predicate AtMost(a: GameHand, b: GameHand)
    requires |a.cards| == |b.cards|
  {
    Compare(a, b).value <= 0
  }

  predicate SortedEntries(s: seq<Entry>)
    requires AllFive(s)
  {
    forall i, j :: 0 <= i < j < |s| ==> AtMost(s[i].hand, s[j].hand)
  }

  /** Inserts `e` after every entry at most equal to it and before the first one above it. */
  function InsertStable(s: seq<Entry>, e: Entry): (r: seq<Entry>)
    requires AllFive(s) && |e.hand.cards| == 5
    ensures |r| == |s| + 1 && AllFive(r)
    ensures forall x :: x in r ==> x in s || x == e
  {
    if |s| == 0 then [e]
    else if !AtMost(s[0].hand, e.hand) then [e] + s
    else [s[0]] + InsertStable(s[1..], e)
  }

  /** `Collections.sort`, a stable sort: each entry in turn is inserted after the equal ones before it. */
  function StableSort(s: seq<Entry>): (r: seq<Entry>)
    requires AllFive(s)
    ensures |r| == |s| && AllFive(r)
    ensures forall x :: x in r ==> x in s
  {
    if |s| == 0 then []
    else
      assert forall x :: x in s[..|s| - 1] ==> x in s;
      InsertStable(StableSort(s[..|s| - 1]), s[|s| - 1])
  }

  /** `indexOf` by identity: the position of the first entry marked `mine`, or -1. */
  function IndexOfMine(s: seq<Entry>): (i: int)
    ensures -1 <= i < |s|
    ensures i >= 0 ==> s[i].mine && forall k :: 0 <= k < i ==> !s[k].mine
    ensures i == -1 ==> forall k :: 0 <= k < |s| ==> !s[k].mine
  {
    if |s| == 0 then -1
    else if s[0].mine then 0
    else
      var i := IndexOfMine(s[1..]);
      if i == -1 then -1 else i + 1
  }

  /** How many entries of `s` are at most `h`. */
  function CountAtMost(s: seq<Entry>, h: GameHand): (n: nat)
    requires AllFive(s) && |h.cards| == 5
    ensures n <= |s|
  {
    if |s| == 0 then 0 else (if AtMost(s[0].hand, h) then 1 else 0) + CountAtMost(s[1..], h)
  }

  lemma {:induction false} CountAtMostAppend(s: seq<Entry>, e: Entry, h: GameHand)
    requires AllFive(s) && |e.hand.cards| == 5 && |h.cards| == 5
    ensures CountAtMost(s + [e], h) == CountAtMost(s, h) + if AtMost(e.hand, h) then 1 else 0
  {
    if |s| > 0 {
      assert (s + [e])[1..] == s[1..] + [e];
      CountAtMostAppend(s[1..], e, h);
    }
  }

  lemma {:induction false} CountAtMostInsert(s: seq<Entry>, e: Entry, h: GameHand)
    requires AllFive(s) && |e.hand.cards| == 5 && |h.cards| == 5
    ensures CountAtMost(InsertStable(s, e), h) == CountAtMost(s, h) + if AtMost(e.hand, h) then 1 else 0
  {
    if |s| > 0 && AtMost(s[0].hand, e.hand) {
      CountAtMostInsert(s[1..], e, h);
    }
  }

  /** Sorting does not change how many entries are at most `h`. */
  lemma {:induction false} CountAtMostSort(s: seq<Entry>, h: GameHand)
    requires AllFive(s) && |h.cards| == 5
    ensures CountAtMost(StableSort(s), h) == CountAtMost(s, h)
  {
    if |s| > 0 {
      var init, last := s[..|s| - 1], s[|s| - 1];
      assert s == init + [last];
      assert StableSort(s) == InsertStable(StableSort(init), last);
      CountAtMostAppend(init, last, h);
      CountAtMostSort(init, h);
      CountAtMostInsert(StableSort(init), last, h);
    }
  }

  lemma {:induction false} InsertKeepsSortedEntries(s: seq<Entry>, e: Entry)
    requires AllFive(s) && |e.hand.cards| == 5 && SortedEntries(s)
    ensures SortedEntries(InsertStable(s, e))
  {
    if |s| > 0 {
      if !AtMost(s[0].hand, e.hand) {
        CompareAntisymmetric(s[0].hand, e.hand);
        forall j | 0 <= j < |s|
          ensures AtMost(e.hand, s[j].hand)
        {
          if j > 0 {
            CompareTransitive(e.hand, s[0].hand, s[j].hand);
          }
        }
        ConsSorted(e, s);
      } else {
        InsertKeepsSortedEntries(s[1..], e);
        var rest := InsertStable(s[1..], e);
        forall j | 0 <= j < |rest|
          ensures AtMost(s[0].hand, rest[j].hand)
        {
          assert rest[j] in rest;
          if rest[j] != e {
            var k :| 0 <= k < |s[1..]| && s[1..][k] == rest[j];
            assert s[k + 1] == rest[j];
          }
        }
        ConsSorted(s[0], rest);
      }
    }
  }

  /** An entry at most every entry of a sorted list can go in front of it. */
  lemma ConsSorted(x: Entry, s: seq<Entry>)
    requires AllFive(s) && |x.hand.cards| == 5 && SortedEntries(s)
    requires forall j :: 0 <= j < |s| ==> AtMost(x.hand, s[j].hand)
    ensures AllFive([x] + s) && SortedEntries([x] + s)
  {
    var t := [x] + s;
    assert forall k :: 1 <= k < |t| ==> t[k] == s[k - 1];
  }

  lemma {:induction false} StableSortSorted(s: seq<Entry>)
    requires AllFive(s)
    ensures SortedEntries(StableSort(s))
  {
    if |s| > 0 {
      StableSortSorted(s[..|s| - 1]);
      InsertKeepsSortedEntries(StableSort(s[..|s| - 1]), s[|s| - 1]);
    }
  }

  /** In a sorted list without the real hand, the real hand lands right after the entries at most equal to
      it. */
  lemma {:induction false} InsertMineIndex(s: seq<Entry>, e: Entry)
    requires AllFive(s) && |e.hand.cards| == 5 && SortedEntries(s)
    requires e.mine && forall k :: 0 <= k < |s| ==> !s[k].mine
    ensures IndexOfMine(InsertStable(s, e)) == CountAtMost(s, e.hand)
  {
    if |s| > 0 {
      if !AtMost(s[0].hand, e.hand) {
        NoneAtMost(s, e.hand);
      } else {
        InsertMineIndex(s[1..], e);
      }
    }
  }

  /** When the lowest entry of a sorted list is above `h`, no entry is at most `h`. */
  lemma {:induction false} NoneAtMost(s: seq<Entry>, h: GameHand)
    requires AllFive(s) && |h.cards| == 5 && SortedEntries(s)
    requires |s| > 0 && !AtMost(s[0].hand, h)
    ensures CountAtMost(s, h) == 0
  {
    if |s| > 1 {
      if AtMost(s[1].hand, h) {
        CompareTransitive(s[0].hand, s[1].hand, h);
      }
      NoneAtMost(s[1..], h);
    }
  }

  /** The opponents' hands, then the real hand, as the list to be sorted. */
  function Population(opponents: seq<GameHand>, mine: GameHand): (s: seq<Entry>)
    ensures |s| == |opponents| + 1
    ensures s[|opponents|] == Entry(mine, true)
    ensures forall k :: 0 <= k < |opponents| ==> s[k] == Entry(opponents[k], false)
  {
    seq(|opponents|, k requires 0 <= k < |opponents| => Entry(opponents[k], false)) + [Entry(mine, true)]
  }

  /** Five-card hands only. */
  predicate FiveCardHands(hs: seq<GameHand>) {
    forall k :: 0 <= k < |hs| ==> |hs[k].cards| == 5
  }

  /** How many opponent hands are at most the real hand. */
  function OpponentsAtMost(opponents: seq<GameHand>, mine: GameHand): (n: nat)
    requires FiveCardHands(opponents) && |mine.cards| == 5
    ensures n <= |opponents|
  {
    if |opponents| == 0 then 0
    else (if AtMost(opponents[0], mine) then 1 else 0) + OpponentsAtMost(opponents[1..], mine)
  }

  /** The position `indexOf` finds after sorting the population. */
  function SortedIndex(opponents: seq<GameHand>, mine: GameHand): (i: int)
    requires FiveCardHands(opponents) && |mine.cards| == 5
    ensures i == OpponentsAtMost(opponents, mine)
  {
    var pop := Population(opponents, mine);
    var i := IndexOfMine(StableSort(pop));
    SortedIndexIsCount(opponents, mine);
    i
  }

  lemma SortedIndexIsCount(opponents: seq<GameHand>, mine: GameHand)
    requires FiveCardHands(opponents) && |mine.cards| == 5
    ensures IndexOfMine(StableSort(Population(opponents, mine))) == OpponentsAtMost(opponents, mine)
  {
    var pop := Population(opponents, mine);
    var others := pop[..|pop| - 1];
    assert forall k :: 0 <= k < |others| ==> others[k] == Entry(opponents[k], false);
    var sortedOthers := StableSort(others);
    StableSortSorted(others);
    assert forall k :: 0 <= k < |sortedOthers| ==> !sortedOthers[k].mine by {
      forall k | 0 <= k < |sortedOthers|
        ensures !sortedOthers[k].mine
      {
        assert sortedOthers[k] in sortedOthers;
      }
    }
    InsertMineIndex(sortedOthers, Entry(mine, true));
    CountAtMostSort(others, mine);
    CountOthers(opponents, mine, others);
  }

  lemma {:induction false} CountOthers(opponents: seq<GameHand>, mine: GameHand, others: seq<Entry>)
    requires FiveCardHands(opponents) && |mine.cards| == 5
    requires |others| == |opponents| && forall k :: 0 <= k < |others| ==> others[k] == Entry(opponents[k], false)
    ensures AllFive(others) && CountAtMost(others, mine) == OpponentsAtMost(opponents, mine)
  {
    if |others| > 0 {
      CountOthers(opponents[1..], mine, others[1..]);
    }
  }

  /** The percentile of position `i` among `n` hands: `i / n * 100` rounded down. */
  function Percentile(i: int, n: int): (p: int)
    requires 0 <= i < n
    ensures 0 <= p <= 99
    ensures p * n <= 100 * i < (p + 1) * n
  {
    (100 * i) / n
  }

  /* ---------------------------------------------------------------- getRanking */

  /** The arguments are present, there are two pocket cards, and there are three to five community cards. */
  predicate ValidArguments(pocket: Option<seq<Card>>, community: Option<seq<Card>>) {
    pocket.Some? && community.Some? && |pocket.value| == 2 && 2 < |community.value| < 6
  }

  /** The best hands of the opponents holding any two cards of `pool`. */
  function Opponents(community: seq<Card>, pool: set<Card>): (hs: seq<GameHand>)
    requires Distinct(community) && 3 <= |community| <= 5
    requires forall c :: c in pool ==> c !in community
    ensures FiveCardHands(hs)
    ensures 2 * |hs| == |pool| * (|pool| - 1)
  {
    var a := PoolOrder(pool);
    OpponentsFive(community, a);
    OpponentsCount(community, pool);
    OpponentHands(community, Pairs(a))
  }

  /** One opponent hand for every two cards of the pool. */
  lemma OpponentsCount(community: seq<Card>, pool: set<Card>)
    ensures 2 * |OpponentHands(community, Pairs(PoolOrder(pool)))| == |pool| * (|pool| - 1)
  {
    PoolOrderSize(pool);
    PairsCount(PoolOrder(pool));
  }

  /** The ranking of the real hand against every pair of cards in `pool`. */
  function RankAgainst(pocket: seq<Card>, community: seq<Card>, pool: set<Card>): (r: HandRanking)
    requires |pocket| == 2 && 2 < |community| < 6
    requires Distinct(community + pocket)
    requires forall c :: c in pool ==> c !in community && c !in pocket
    ensures r.hand == BestHandOf(community + pocket).value
    ensures 0 <= r.rankingValue <= 99 && r.pocketCardsInPokerHand <= 2
    ensures PocketCardsInHand(r.hand, pocket) == Success(r.pocketCardsInPokerHand)
    ensures Distinct(community) &&
      var opponents := Opponents(community, pool);
      |r.hand.cards| == 5 && r.rankingValue == Percentile(OpponentsAtMost(opponents, r.hand), |opponents| + 1)
  {
    MyHandFive(pocket, community);
    RankingOf(BestHandOf(community + pocket).value, pocket, Opponents(community, pool))
  }

  /** The ranking of the hand `mine` among `opponents`, with its pocket cards counted. */
  function RankingOf(mine: GameHand, pocket: seq<Card>, opponents: seq<GameHand>): (r: HandRanking)
    requires FiveCardHands(opponents) && |mine.cards| == 5
    requires PocketCardsInHand(mine, pocket).Success?
    ensures r.hand == mine && 0 <= r.rankingValue <= 99
    ensures r.rankingValue == Percentile(OpponentsAtMost(opponents, mine), |opponents| + 1)
    ensures PocketCardsInHand(mine, pocket) == Success(r.pocketCardsInPokerHand)
  {
    var i := SortedIndex(opponents, mine);
    HandRanking(mine, Percentile(i, |opponents| + 1), PocketCardsInHand(mine, pocket).value)
  }

  /** The real hand is a five-card hand, from which the pocket cards can be counted. */
  lemma MyHandFive(pocket: seq<Card>, community: seq<Card>)
    requires |pocket| == 2 && 2 < |community| < 6
    requires Distinct(community + pocket)
    ensures Distinct(community)
    ensures BestHandOf(community + pocket).Success?
    ensures |BestHandOf(community + pocket).value.cards| == 5
    ensures PocketCardsInHand(BestHandOf(community + pocket).value, pocket).Success?
  {
    DistinctSplit(community, pocket);
    BestHandWellFormed(community + pocket);
  }

  /** Every opponent hand has five cards. */
  lemma OpponentsFive(community: seq<Card>, a: seq<Card>)
    requires Distinct(community) && 3 <= |community| <= 5 && Distinct(a)
    requires forall c :: c in a ==> c !in community
    ensures FiveCardHands(OpponentHands(community, Pairs(a)))
  {
    var ps := Pairs(a);
    PairsDistinct(a);
    PairsFrom(a);
    forall k | 0 <= k < |ps|
      ensures |BestHandOf(community + [ps[k].0, ps[k].1]).value.cards| == 5
    {
      assert ps[k] in ps;
      OpponentHandFive(community, ps[k].0, ps[k].1);
    }
  }

  /** One opponent's best hand has five cards. */
  lemma OpponentHandFive(community: seq<Card>, x: Card, y: Card)
    requires Distinct(community) && 3 <= |community| <= 5
    requires x != y && x !in community && y !in community
    ensures |BestHandOf(community + [x, y]).value.cards| == 5
  {
    DistinctConcat(community, [x, y]);
    BestHandWellFormed(community + [x, y]);
  }

  /** `getRanking`. It fails on a missing list or on sizes other than two pocket and three to five
      community cards; answers from the cache when it holds the card count; otherwise it drops the known
      cards from the pool, ranks the real hand against every pair of the remaining cards, and caches the
      ranking under the card count. */
  function GetRanking(s: ServiceState, pocket: Option<seq<Card>>, community: Option<seq<Card>>)
    : (r: Result<(HandRanking, ServiceState)>)
    requires ValidArguments(pocket, community) ==> Distinct(community.value + pocket.value)
    ensures pocket.None? || community.None? ==> r == Failure(NullArgument)
    ensures pocket.Some? && community.Some? && !ValidArguments(pocket, community) ==> r == Failure(IllegalState)
    ensures r.Success? <==> ValidArguments(pocket, community)
    ensures ValidArguments(pocket, community) && |pocket.value| + |community.value| in s.cache ==>
      r == Success((s.cache[|pocket.value| + |community.value|], s))
    ensures ValidArguments(pocket, community) && |pocket.value| + |community.value| !in s.cache ==>
      var n := |pocket.value| + |community.value|;
      var (ranking, s') := r.value;
      && s'.pool == s.pool - Elems(community.value) - Elems(pocket.value)
      && s'.cache == s.cache[n := ranking]
      && ranking.hand == BestHandOf(community.value + pocket.value).value
      && 0 <= ranking.rankingValue <= 99
      && PocketCardsInHand(ranking.hand, pocket.value) == Success(ranking.pocketCardsInPokerHand)
  {
    if pocket.None? || community.None? then Failure(NullArgument)
    else if !ValidArguments(pocket, community) then Failure(IllegalState)
    else
      var n := |pocket.value| + |community.value|;
      assert ValidArguments(pocket, community);
      if n in s.cache then Success((s.cache[n], s))
      else
        var r := Recompute(s, pocket.value, community.value);
        Success(r)
  }

  /** The uncached branch of `getRanking`: drop the known cards from the pool, rank, and cache. */
  function Recompute(s: ServiceState, pocket: seq<Card>, community: seq<Card>): (r: (HandRanking, ServiceState))
    requires |pocket| == 2 && 2 < |community| < 6 && Distinct(community + pocket)
    ensures r.1.pool == s.pool - Elems(community) - Elems(pocket)
    ensures r.1.cache == s.cache[|pocket| + |community| := r.0]
    ensures r.0.hand == BestHandOf(community + pocket).value && 0 <= r.0.rankingValue <= 99
    ensures PocketCardsInHand(r.0.hand, pocket) == Success(r.0.pocketCardsInPokerHand)
  {
    var pool := s.pool - Elems(community) - Elems(pocket);
    var ranking := RankAgainst(pocket, community, pool);
    (ranking, ServiceState(pool, s.cache[|pocket| + |community| := ranking]))
  }

  /** The ranking is the real hand's position among all hands, which is the number of opponent pairs whose
      best hand is at most the real one, over the number of hands; there are `m(m-1)/2` opponent pairs for
      `m` cards left in the pool. */
  lemma RankingIsOpponentCount(s: ServiceState, pocket: seq<Card>, community: seq<Card>)
    requires ValidArguments(Some(pocket), Some(community)) && Distinct(community + pocket)
    requires |pocket| + |community| !in s.cache
    ensures Distinct(community) &&
      var (ranking, s') := GetRanking(s, Some(pocket), Some(community)).value;
      var opponents := Opponents(community, s'.pool);
      && 2 * |opponents| == |s'.pool| * (|s'.pool| - 1)
      && ranking.rankingValue == Percentile(OpponentsAtMost(opponents, ranking.hand), |opponents| + 1)
  {
    DistinctSplit(community, pocket);
  }

  /** A first flop call on a fresh service leaves 47 cards in the pool. */
  lemma FirstFlopLeaves47(pocket: seq<Card>, community: seq<Card>)
    requires |pocket| == 2 && |community| == 3 && Distinct(community + pocket)
    ensures var r := GetRanking(Fresh(), Some(pocket), Some(community));
      r.Success? && |r.value.1.pool| == 47
  {
    var known := Elems(community) + Elems(pocket);
    DistinctElemsCardinality(community + pocket);
    assert Elems(community + pocket) == known;
    var pool := Fresh().pool - Elems(community) - Elems(pocket);
    assert pool == Fresh().pool - known;
    DifferenceCardinality(Fresh().pool, known);
    var r := GetRanking(Fresh(), Some(pocket), Some(community));
    assert r.value.1.pool == pool;
  }

  lemma DifferenceCardinality(a: set<Card>, b: set<Card>)
    requires b <= a
    ensures |a - b| == |a| - |b|
  {
    assert a == (a - b) + b;
  }

  /** A second call with the same card count comes from the cache and changes nothing. */
  lemma SecondCallIsCached(s: ServiceState, pocket: seq<Card>, community: seq<Card>, later: seq<Card>)
    requires ValidArguments(Some(pocket), Some(community)) && Distinct(community + pocket)
    requires |later| == |community| && Distinct(later + pocket)
    ensures var first := GetRanking(s, Some(pocket), Some(community)).value;
      GetRanking(first.1, Some(pocket), Some(later)) == Success(first)
  {
  }

  /** `resetDeck` forgets every cached ranking, so the next call computes afresh. */
  lemma ResetForgetsCache(pocket: seq<Card>, community: seq<Card>)
    requires ValidArguments(Some(pocket), Some(community)) && Distinct(community + pocket)
    ensures GetRanking(Fresh(), Some(pocket), Some(community)).value.1.cache.Keys == {|pocket| + |community|}
  {
  }

  /** The service object: its state behind `getRanking`, `resetDeck` and `getCardsInRankingDeck`. */
  class RankingService {
    var state: ServiceState

    constructor()
      ensures state == Fresh()
    {
      state := Fresh();
    }

    method ResetDeck()
      modifies this
      ensures state == Fresh()
    {
      state := Fresh();
    }

    method CardsInRankingDeck() returns (n: nat)
      ensures n == |state.pool|
    {
      n := |state.pool|;
    }

    /** `getRanking` on the object: the ranking, with the state moved on as the function says. */
    method Ranking(pocket: Option<seq<Card>>, community: Option<seq<Card>>) returns (r: Result<HandRanking>)
      requires ValidArguments(pocket, community) ==> Distinct(community.value + pocket.value)
      modifies this
      ensures var expected := GetRanking(old(state), pocket, community);
        (r.Success? <==> expected.Success?) &&
        (r.Success? ==> r.value == expected.value.0 && state == expected.value.1) &&
        (r.Failure? ==> r.error == expected.error && state == old(state))
    {
      match GetRanking(state, pocket, community)
      case Failure(e) =>
        r := Failure(e);
      case Success((ranking, next)) =>
        state := next;
        r := Success(ranking);
    }
  }
}
