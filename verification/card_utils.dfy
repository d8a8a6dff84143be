/**
 * The card-list utilities of the evaluator: distributions by rank and suit, merge and difference,
 * sorting, top-N selection, de-duplication by rank, the wheel-aware longest run of consecutive ranks,
 * and "the highest rank with at least n cards".
 */
module CardListUtils {
  import opened Wrappers
  import opened Cards

  /* ---------------------------------------------------------------- distributions */

  /** The cards grouped by rank; each bucket keeps the cards in input order. */
  function RankDistribution(cards: seq<Card>): (m: map<Rank, seq<Card>>)
    ensures forall r :: r in m <==> Count(cards, r) > 0
    ensures forall r :: r in m ==> m[r] == WithRank(cards, r)
  {
    map r: Rank | Count(cards, r) > 0 :: WithRank(cards, r)
  }

  /** The cards grouped by suit; each bucket keeps the cards in input order. */
  function SuitDistribution(cards: seq<Card>): (m: map<Suit, seq<Card>>)
    ensures forall u :: u in m <==> |WithSuit(cards, u)| > 0
    ensures forall u :: u in m ==> m[u] == WithSuit(cards, u)
  {
    map u: Suit | |WithSuit(cards, u)| > 0 :: WithSuit(cards, u)
  }

  /** The number of cards whose rank is `from` or higher, summed bucket by bucket. */
  function CountFrom(cards: seq<Card>, from: int): nat
    requires 2 <= from <= 15
    decreases 15 - from
  {
    if from == 15 then 0 else Count(cards, from) + CountFrom(cards, from + 1)
  }

  lemma {:induction false} CountFromCons(cards: seq<Card>, from: int)
    requires |cards| > 0 && 2 <= from <= 15
    ensures CountFrom(cards, from) == CountFrom(cards[1..], from) + (if cards[0].rank >= from then 1 else 0)
    decreases 15 - from
  {
    if from < 15 {
      CountFromCons(cards, from + 1);
    }
  }

  /** The rank buckets partition the cards: their sizes add up to the number of cards. */
  lemma {:induction false} RankDistributionPartitions(cards: seq<Card>)
    ensures CountFrom(cards, 2) == |cards|
  {
    if |cards| == 0 {
      ZeroCountFrom(cards, 2);
    } else {
      CountFromCons(cards, 2);
      RankDistributionPartitions(cards[1..]);
    }
  }

  lemma {:induction false} ZeroCountFrom(cards: seq<Card>, from: int)
    requires |cards| == 0 && 2 <= from <= 15
    ensures CountFrom(cards, from) == 0
    decreases 15 - from
  {
    if from < 15 {
      ZeroCountFrom(cards, from + 1);
    }
  }

  /* ---------------------------------------------------------------- merge and remove */

  /** Both lists one after the other; a missing (null) list counts as empty. */
  function Merge(first: Option<seq<Card>>, second: Option<seq<Card>>): (r: seq<Card>)
    ensures first.Some? && second.Some? ==> r == first.value + second.value
    ensures first.Some? && second.None? ==> r == first.value
    ensures first.None? && second.Some? ==> r == second.value
    ensures first.None? && second.None? ==> r == []
  {
    (if first.Some? then first.value else []) + (if second.Some? then second.value else [])
  }

  /** The cards of `target` that do not occur in `ex`, in their order in `target`. */
  function Without(target: seq<Card>, ex: seq<Card>): (r: seq<Card>)
    ensures |r| <= |target|
    ensures forall c :: c in r <==> c in target && c !in ex
    ensures Distinct(target) ==> Distinct(r)
  {
    if |target| == 0 then []
    else if target[0] in ex then Without(target[1..], ex)
    else [target[0]] + Without(target[1..], ex)
  }

  /** A copy of `target` with every card of `remove` left out; a null or empty `remove` copies `target`. */
  function Remove(target: seq<Card>, remove: Option<seq<Card>>): (r: seq<Card>)
    ensures |r| <= |target|
    ensures forall c :: c in r <==> c in target && !(remove.Some? && c in remove.value)
    ensures Distinct(target) ==> Distinct(r)
    ensures remove.None? || |remove.value| == 0 ==> r == target
  {
    if remove.None? || |remove.value| == 0 then target
    else Without(target, remove.value)
  }

  /** Removal only looks at which cards are to be removed. */
  lemma RemoveSameMembers(target: seq<Card>, a: seq<Card>, b: seq<Card>)
    requires |a| > 0 && |b| > 0
    requires forall c :: c in a <==> c in b
    ensures Remove(target, Some(a)) == Remove(target, Some(b))
  {
    WithoutSameMembers(target, a, b);
  }

  lemma {:induction false} WithoutSameMembers(target: seq<Card>, a: seq<Card>, b: seq<Card>)
    requires forall c :: c in a <==> c in b
    ensures Without(target, a) == Without(target, b)
  {
    if |target| > 0 {
      WithoutSameMembers(target[1..], a, b);
    }
  }

  /** Removal works card by card: it distributes over concatenation and keeps the order of what stays. */
  lemma {:induction false} WithoutDistributes(a: seq<Card>, b: seq<Card>, ex: seq<Card>)
    ensures Without(a + b, ex) == Without(a, ex) + Without(b, ex)
  {
    if |a| == 0 {
      assert a + b == b;
    } else {
      assert (a + b)[1..] == a[1..] + b;
      WithoutDistributes(a[1..], b, ex);
    }
  }

  /** Removing what was merged in gives back the first list. */
  lemma {:induction false} MergeThenRemove(first: seq<Card>, second: seq<Card>)
    requires forall c :: c in first ==> c !in second
    ensures Remove(Merge(Some(first), Some(second)), Some(second)) == first
  {
    WithoutDistributes(first, second, second);
    WithoutNone(first, second);
    WithoutAll(second);
  }

  lemma {:induction false} WithoutNone(a: seq<Card>, ex: seq<Card>)
    requires forall c :: c in a ==> c !in ex
    ensures Without(a, ex) == a
  {
    if |a| > 0 {
      WithoutNone(a[1..], ex);
    }
  }

  lemma {:induction false} WithoutAll(a: seq<Card>)
    ensures Without(a, a) == []
  {
    WithoutCovered(a, a);
  }

  lemma {:induction false} WithoutCovered(a: seq<Card>, ex: seq<Card>)
    requires forall c :: c in a ==> c in ex
    ensures Without(a, ex) == []
  {
    if |a| > 0 {
      WithoutCovered(a[1..], ex);
    }
  }

  /** For distinct cards, removing k distinct present cards leaves exactly |target| - k cards. */
  lemma WithoutCount(target: seq<Card>, ex: seq<Card>)
    requires Distinct(target) && Distinct(ex)
    requires forall c :: c in ex ==> c in target
    ensures |Without(target, ex)| == |target| - |ex|
  {
    var r := Without(target, ex);
    DistinctElemsCardinality(target);
    DistinctElemsCardinality(ex);
    DistinctElemsCardinality(r);
    assert Elems(r) == Elems(target) - Elems(ex);
    assert Elems(ex) <= Elems(target);
    assert Elems(target) == Elems(r) + Elems(ex);
  }

  /* ---------------------------------------------------------------- sorting */

  /** The two card comparators: by rank then suit, and by suit then rank. */
  datatype SortBy = ByRank | BySuit

  /** The comparator as an integer key; it tells any two different cards apart. */
  function Key(order: SortBy, c: Card): int {
    match order
    case ByRank => c.rank * 4 + SuitIndex(c.suit)
    case BySuit => SuitIndex(c.suit) * 16 + c.rank
  }

  predicate SortedBy(order: SortBy, s: seq<Card>) {
    forall i, j :: 0 <= i < j < |s| ==> Key(order, s[i]) <= Key(order, s[j])
  }

  /** Ranks never increase along `s`. */
  predicate RankDescending(s: seq<Card>) {
    forall i, j :: 0 <= i < j < |s| ==> s[i].rank >= s[j].rank
  }

  function Insert(order: SortBy, c: Card, s: seq<Card>): (r: seq<Card>)
    ensures |r| == |s| + 1
    ensures multiset(r) == multiset(s) + multiset{c}
  {
    if |s| == 0 then [c]
    else if Key(order, c) <= Key(order, s[0]) then [c] + s
    else
      assert s == [s[0]] + s[1..];
      [s[0]] + Insert(order, c, s[1..])
  }

  lemma {:induction false} InsertKeepsSorted(order: SortBy, c: Card, s: seq<Card>)
    requires SortedBy(order, s)
    ensures SortedBy(order, Insert(order, c, s))
  {
    if |s| > 0 && Key(order, c) > Key(order, s[0]) {
      var rest := Insert(order, c, s[1..]);
      assert Insert(order, c, s) == [s[0]] + rest;
      InsertKeepsSorted(order, c, s[1..]);
      InsertMembers(order, c, s[1..]);
      forall i | 0 <= i < |rest|
        ensures Key(order, s[0]) <= Key(order, rest[i])
      {
        assert rest[i] in rest;
        if rest[i] != c {
          var k :| 0 <= k < |s[1..]| && s[1..][k] == rest[i];
          assert s[k + 1] == rest[i];
        }
      }
      ConsSortedBy(order, s[0], rest);
    }
  }

  /** The inserted sequence holds the new card and the old ones, and nothing else. */
  lemma InsertMembers(order: SortBy, c: Card, s: seq<Card>)
    ensures forall x :: x in Insert(order, c, s) <==> x == c || x in s
  {
    var r := Insert(order, c, s);
    forall x
      ensures x in r <==> x == c || x in s
    {
      assert x in r <==> x in multiset(r);
      assert x in s <==> x in multiset(s);
    }
  }

  /** A card no later than every card of a sorted sequence can go in front of it. */
  lemma ConsSortedBy(order: SortBy, c: Card, s: seq<Card>)
    requires SortedBy(order, s)
    requires forall i :: 0 <= i < |s| ==> Key(order, c) <= Key(order, s[i])
    ensures SortedBy(order, [c] + s)
  {
    var t := [c] + s;
    assert forall k :: 1 <= k < |t| ==> t[k] == s[k - 1];
  }

  /** `sortBy`: a sorted copy of the cards, the same cards with the same multiplicities. */
  function SortCards(order: SortBy, s: seq<Card>): (r: seq<Card>)
    ensures |r| == |s|
    ensures multiset(r) == multiset(s)
    ensures SortedBy(order, r)
  {
    if |s| == 0 then []
    else
      var rest := SortCards(order, s[1..]);
      assert s == [s[0]] + s[1..];
      InsertKeepsSorted(order, s[0], rest);
      Insert(order, s[0], rest)
  }

  function Reverse(s: seq<Card>): (r: seq<Card>)
    ensures |r| == |s|
    ensures forall i :: 0 <= i < |s| ==> r[i] == s[|s| - 1 - i]
  {
    if |s| == 0 then [] else Reverse(s[1..]) + [s[0]]
  }

  lemma {:induction false} ReverseKeepsCards(s: seq<Card>)
    ensures multiset(Reverse(s)) == multiset(s)
  {
    if |s| > 0 {
      ReverseKeepsCards(s[1..]);
      assert s == [s[0]] + s[1..];
    }
  }

  /** Each comparator key belongs to exactly one card. */
  lemma KeyInjective(order: SortBy, c: Card, d: Card)
    requires Key(order, c) == Key(order, d)
    ensures c == d
  {
    match order
    case ByRank =>
      assert c.rank == d.rank && SuitIndex(c.suit) == SuitIndex(d.suit);
    case BySuit =>
      assert c.rank == d.rank && SuitIndex(c.suit) == SuitIndex(d.suit);
  }

  /** Two sorted sequences of the same cards start with the same card. */
  lemma SortedSameHead(order: SortBy, a: seq<Card>, b: seq<Card>)
    requires SortedBy(order, a) && SortedBy(order, b)
    requires multiset(a) == multiset(b) && |a| > 0
    ensures |b| > 0 && a[0] == b[0]
  {
    assert |b| == |multiset(b)| == |a|;
    assert a[0] in multiset(b);
    var j :| 0 <= j < |b| && b[j] == a[0];
    assert b[0] in multiset(a);
    var i :| 0 <= i < |a| && a[i] == b[0];
    assert Key(order, a[0]) <= Key(order, a[i]);
    KeyInjective(order, a[0], b[0]);
  }

  /** The rest of a sorted sequence is sorted. */
  lemma SortedTail(order: SortBy, a: seq<Card>)
    requires SortedBy(order, a) && |a| > 0
    ensures SortedBy(order, a[1..])
  {
    forall x, y | 0 <= x < y < |a[1..]|
      ensures Key(order, a[1..][x]) <= Key(order, a[1..][y])
    {
      assert a[1..][x] == a[x + 1] && a[1..][y] == a[y + 1];
    }
  }

  /** The rest of a sequence holds its cards but the first. */
  lemma TailCards(a: seq<Card>)
    requires |a| > 0
    ensures multiset(a[1..]) == multiset(a) - multiset{a[0]}
  {
    assert a == [a[0]] + a[1..];
    assert multiset(a) == multiset{a[0]} + multiset(a[1..]);
  }

  /** A comparator that tells every two cards apart leaves a sort no choice: two sorted sequences of the same
      cards are the same sequence. */
  lemma {:induction false} SortedUnique(order: SortBy, a: seq<Card>, b: seq<Card>)
    requires SortedBy(order, a) && SortedBy(order, b)
    requires multiset(a) == multiset(b)
    ensures a == b
  {
    if |a| == 0 {
      assert |b| == |multiset(b)| == 0;
    } else {
      SortedSameHead(order, a, b);
      TailCards(a);
      TailCards(b);
      SortedTail(order, a);
      SortedTail(order, b);
      SortedUnique(order, a[1..], b[1..]);
      assert a == [a[0]] + a[1..];
      assert b == [b[0]] + b[1..];
    }
  }

  /** Neighbours in order is enough for the whole sequence to be in order. */
  lemma {:induction false} SortedBySteps(order: SortBy, s: seq<Card>)
    requires forall i :: 0 < i < |s| ==> Key(order, s[i - 1]) <= Key(order, s[i])
    ensures SortedBy(order, s)
  {
    if |s| > 1 {
      SortedBySteps(order, s[1..]);
      forall i, j | 0 <= i < j < |s|
        ensures Key(order, s[i]) <= Key(order, s[j])
      {
        if i > 0 {
          assert s[i] == s[1..][i - 1] && s[j] == s[1..][j - 1];
        } else if j > 1 {
          assert s[1] == s[1..][0] && s[j] == s[1..][j - 1];
        }
      }
    }
  }

  /** Any arrangement of the cards whose neighbours are in comparator order is the one `sortBy` produces. */
  lemma SortedPermutationIsSort(order: SortBy, s: seq<Card>, sorted: seq<Card>)
    requires multiset(s) == multiset(sorted)
    requires forall i :: 0 < i < |sorted| ==> Key(order, sorted[i - 1]) <= Key(order, sorted[i])
    ensures SortCards(order, s) == sorted
  {
    SortedBySteps(order, sorted);
    SortedUnique(order, SortCards(order, s), sorted);
  }

  /** Cards sorted by rank, highest first (the RANK comparator followed by a reversal). */
  function DescendingByRank(s: seq<Card>): (r: seq<Card>)
    ensures |r| == |s|
    ensures multiset(r) == multiset(s)
    ensures RankDescending(r)
    ensures forall i, j :: 0 <= i < j < |r| ==> Key(ByRank, r[i]) >= Key(ByRank, r[j])
    ensures Distinct(s) ==> Distinct(r)
  {
    var sorted := SortCards(ByRank, s);
    ReverseKeepsCards(sorted);
    var r := Reverse(sorted);
    assert Distinct(s) ==> Distinct(r) by {
      if Distinct(s) {
        SameCardsKeepDistinct(s, r);
      }
    }
    r
  }

  /* ---------------------------------------------------------------- top-N selection */

  /** `getHighestSortedAndExclude`: the `noof` highest-ranked cards that are not excluded, highest first. */
  function HighestSortedAndExclude(noof: nat, cards: seq<Card>, exclude: Option<seq<Card>>): (r: seq<Card>)
    ensures |r| == if noof < |Remove(cards, exclude)| then noof else |Remove(cards, exclude)|
    ensures forall c :: c in r ==> c in cards && !(exclude.Some? && c in exclude.value)
    ensures Distinct(cards) ==> Distinct(r)
  {
    var removed := Remove(cards, exclude);
    var desc := DescendingByRank(removed);
    var n := if noof > |desc| then |desc| else noof;
    TopOfDescending(removed, desc, n);
    desc[..n]
  }

  /** The cards `getHighestSortedAndExclude` picks come highest rank first, and every card it leaves out
      ranks no higher than any it picks. */
  lemma HighestAreHighest(noof: nat, cards: seq<Card>, exclude: Option<seq<Card>>)
    ensures RankDescending(HighestSortedAndExclude(noof, cards, exclude))
    ensures var r := HighestSortedAndExclude(noof, cards, exclude);
      forall c, d :: c in Remove(cards, exclude) && c !in r && d in r ==> c.rank <= d.rank
  {
    var removed := Remove(cards, exclude);
    var desc := DescendingByRank(removed);
    var n := if noof > |desc| then |desc| else noof;
    TopOfDescending(removed, desc, n);
  }

  /** A prefix of a descending arrangement of `removed` holds its highest cards. */
  lemma TopOfDescending(removed: seq<Card>, desc: seq<Card>, n: nat)
    requires n <= |desc|
    requires multiset(desc) == multiset(removed)
    requires RankDescending(desc)
    requires Distinct(removed) ==> Distinct(desc)
    requires forall i, j :: 0 <= i < j < |desc| ==> Key(ByRank, desc[i]) >= Key(ByRank, desc[j])
    ensures forall c :: c in desc[..n] ==> c in removed
    ensures RankDescending(desc[..n])
    ensures Distinct(removed) ==> Distinct(desc[..n])
    ensures forall c, d :: c in removed && c !in desc[..n] && d in desc[..n] ==> c.rank <= d.rank
  {
    PrefixKeeps(ByRank, desc, n);
    forall c | c in desc[..n]
      ensures c in removed
    {
      assert c in multiset(desc);
    }
    forall c, d | c in removed && c !in desc[..n] && d in desc[..n]
      ensures c.rank <= d.rank
    {
      assert c in multiset(desc);
      var k :| 0 <= k < |desc| && desc[k] == c;
      var m :| 0 <= m < n && desc[m] == d;
      assert Key(ByRank, d) >= Key(ByRank, c);
    }
  }

  /* ---------------------------------------------------------------- de-duplication by rank */

  predicate RanksStrictlyIncreasing(s: seq<Card>) {
    forall i, j :: 0 <= i < j < |s| ==> s[i].rank < s[j].rank
  }

  function RankSet(s: seq<Card>): set<Rank> {
    set c | c in s :: c.rank
  }

  /** Keeps each card whose predecessor has a different rank (the first of every group of equal ranks). */
  function FirstOfEachRank(s: seq<Card>): (r: seq<Card>)
    ensures |r| <= |s|
    ensures forall c :: c in r ==> c in s
    ensures |s| > 0 ==> |r| > 0 && r[|r| - 1].rank == s[|s| - 1].rank
  {
    if |s| <= 1 then s
    else
      var init := s[..|s| - 1];
      var last := s[|s| - 1];
      var kept := FirstOfEachRank(init);
      if init[|init| - 1].rank == last.rank then kept else kept + [last]
  }

  /** Every rank of `s` keeps a card. */
  lemma {:induction false} FirstOfEachRankCoversRanks(s: seq<Card>)
    ensures RankSet(FirstOfEachRank(s)) == RankSet(s)
  {
    if |s| > 1 {
      var init := s[..|s| - 1];
      var last := s[|s| - 1];
      assert s == init + [last];
      FirstOfEachRankCoversRanks(init);
      var kept := FirstOfEachRank(init);
      assert RankSet(s) == RankSet(init) + {last.rank};
      assert init[|init| - 1] in init;
      assert RankSet(kept + [last]) == RankSet(kept) + {last.rank};
    } else if |s| == 1 {
      assert RankSet(s) == {s[0].rank};
    }
  }

  /** In a rank-sorted list, a card whose rank differs from the one before it out-ranks everything before it. */
  lemma SortedPrefixBelow(s: seq<Card>)
    requires |s| > 1 && SortedBy(ByRank, s)
    ensures forall c :: c in s[..|s| - 1] ==> Key(ByRank, c) <= Key(ByRank, s[|s| - 1])
    ensures s[|s| - 2].rank != s[|s| - 1].rank ==> forall c :: c in s[..|s| - 1] ==> c.rank < s[|s| - 1].rank
  {
    forall c | c in s[..|s| - 1]
      ensures Key(ByRank, c) <= Key(ByRank, s[|s| - 1])
      ensures c.rank <= s[|s| - 2].rank
    {
      var k :| 0 <= k < |s| - 1 && s[k] == c;
      if k < |s| - 2 {
        assert Key(ByRank, s[k]) <= Key(ByRank, s[|s| - 2]);
      }
    }
  }

  /** On a rank-sorted list the kept ranks strictly increase. */
  lemma {:induction false} FirstOfEachRankIncreasing(s: seq<Card>)
    requires SortedBy(ByRank, s)
    ensures RanksStrictlyIncreasing(FirstOfEachRank(s))
  {
    if |s| > 1 {
      var init := s[..|s| - 1];
      var last := s[|s| - 1];
      assert SortedBy(ByRank, init);
      FirstOfEachRankIncreasing(init);
      SortedPrefixBelow(s);
    }
  }

  /** On a rank-sorted list each kept card has the lowest suit among the cards of its rank. */
  lemma {:induction false} FirstOfEachRankLowestSuit(s: seq<Card>)
    requires SortedBy(ByRank, s)
    ensures forall d, c :: d in FirstOfEachRank(s) && c in s && c.rank == d.rank ==>
      SuitIndex(d.suit) <= SuitIndex(c.suit)
  {
    if |s| > 1 {
      var init := s[..|s| - 1];
      var last := s[|s| - 1];
      assert s == init + [last];
      assert SortedBy(ByRank, init);
      FirstOfEachRankLowestSuit(init);
      SortedPrefixBelow(s);
    }
  }

  /** `removeDuplicatesByRankAndSortByRank`: one card per distinct rank, ranks strictly increasing. */
  function RemoveDuplicatesByRankAndSortByRank(cards: seq<Card>): (r: seq<Card>)
    ensures RanksStrictlyIncreasing(r)
    ensures forall c :: c in r ==> c in cards
    ensures RankSet(r) == RankSet(cards)
    ensures |cards| > 0 ==> |r| > 0
    ensures |r| <= |cards|
    ensures forall d, c :: d in r && c in cards && c.rank == d.rank ==> SuitIndex(d.suit) <= SuitIndex(c.suit)
  {
    var sorted := SortCards(ByRank, cards);
    assert |sorted| == |multiset(sorted)| == |multiset(cards)| == |cards|;
    FirstOfEachRankCoversRanks(sorted);
    FirstOfEachRankIncreasing(sorted);
    FirstOfEachRankLowestSuit(sorted);
    assert forall c :: c in sorted <==> c in cards by {
      forall c
        ensures c in sorted <==> c in cards
      {
        assert c in sorted <==> c in multiset(sorted);
      }
    }
    assert RankSet(sorted) == RankSet(cards);
    FirstOfEachRank(sorted)
  }

  /* ---------------------------------------------------------------- longest consecutive run */

  /** `b` may follow `a` in a straight: one rank higher, or a DEUCE after an ACE played low. */
  predicate Adjacent(a: Card, b: Card) {
    a.rank + 1 == b.rank || (a.rank == ACE && b.rank == DEUCE)
  }

  /** `t[a..b]` is a run: each card may follow the one before it. */
  predicate IsRun(t: seq<Card>, a: int, b: int) {
    0 <= a <= b <= |t| && forall k :: a < k < b ==> Adjacent(t[k - 1], t[k])
  }

  /** The cards one per rank in increasing rank order; if the highest is an ACE it is also put in front,
      where it can act as a one. */
  function AceExtended(cards: seq<Card>): (t: seq<Card>)
    requires |cards| > 0
    ensures |t| > 0 && |t| <= |cards| + 1
    ensures forall c :: c in t ==> c in cards
  {
    var d := RemoveDuplicatesByRankAndSortByRank(cards);
    if d[|d| - 1].rank == ACE then [d[|d| - 1]] + d else d
  }

  /** After the leading ACE, if any, the ranks strictly increase. */
  lemma AceExtendedIncreasing(cards: seq<Card>)
    requires |cards| > 0
    ensures var t := AceExtended(cards); forall i, j :: 1 <= i < j < |t| ==> t[i].rank < t[j].rank
  {
    var d := RemoveDuplicatesByRankAndSortByRank(cards);
    if d[|d| - 1].rank == ACE {
      ShiftIncreasing(d[|d| - 1], d);
    }
  }

  lemma ShiftIncreasing(x: Card, d: seq<Card>)
    requires RanksStrictlyIncreasing(d)
    ensures var t := [x] + d; forall i, j :: 1 <= i < j < |t| ==> t[i].rank < t[j].rank
  {
    var t := [x] + d;
    forall i, j | 1 <= i < j < |t|
      ensures t[i].rank < t[j].rank
    {
      assert t[i] == d[i - 1] && t[j] == d[j - 1];
    }
  }

  /** What holds after the scan has looked at the cards before position `i`: `t[start..i]` is the current
      run, which a break started; `t[lo..hi]` is the best run closed so far, at least as long as every
      closed run, and no closed run of the same length starts after it. */
  ghost predicate ScanState(t: seq<Card>, i: int, start: int, lo: int, hi: int) {
    && 0 <= start <= i <= |t|
    && (i > 0 ==> start < i)
    && IsRun(t, start, i)
    && (start > 0 ==> !Adjacent(t[start - 1], t[start]))
    && 0 <= lo <= hi <= start
    && (hi - lo == 0 || (hi - lo >= 2 && IsRun(t, lo, hi)))
    && (forall a, b :: 0 <= a < b <= start && IsRun(t, a, b) && b - a >= 2 ==> b - a <= hi - lo)
    && (forall a, b :: lo < a < b <= start && IsRun(t, a, b) && b - a >= 2 ==> b - a < hi - lo)
  }

  /** `t[lo..hi]` is empty or a run of at least two cards, and no run is longer. */
  ghost predicate LongestRun(t: seq<Card>, lo: int, hi: int) {
    && 0 <= lo <= hi <= |t|
    && (hi - lo == 0 || hi - lo >= 2)
    && IsRun(t, lo, hi)
    && (forall a, b :: 0 <= a < b <= |t| && IsRun(t, a, b) && b - a >= 2 ==> b - a <= hi - lo)
  }

  /** A run that begins after `t[lo..hi]` and is as long as it can only be the trailing run. */
  ghost predicate LaterTiesTrail(t: seq<Card>, lo: int, hi: int) {
    forall a, b :: lo < a < b <= |t| && IsRun(t, a, b) && b - a >= 2 && b - a == hi - lo ==> b == |t|
  }

  /** When the chosen run is the trailing one, every run that ends before it is strictly shorter. */
  ghost predicate TrailOnlyWhenLonger(t: seq<Card>, lo: int, hi: int) {
    hi == |t| ==> forall a, b :: 0 <= a < b <= lo && IsRun(t, a, b) && b - a >= 2 ==> b - a < hi - lo
  }

  /** The run `getLongestConsecutiveSubset` settles on: a longest run; of several runs of that length, the
      last one a break ends, and the trailing run only when it is strictly longer than every other. */
  ghost predicate ChosenRun(t: seq<Card>, lo: int, hi: int) {
    LongestRun(t, lo, hi) && LaterTiesTrail(t, lo, hi) && TrailOnlyWhenLonger(t, lo, hi)
  }

  /** A run cannot stretch across a break. */
  lemma RunStopsAtBreak(t: seq<Card>, a: int, b: int, start: int)
    requires IsRun(t, a, b) && 0 < start && a < start < b
    ensures Adjacent(t[start - 1], t[start])
  {
  }

  lemma BreakStep(t: seq<Card>, i: int, start: int, lo: int, hi: int)
    requires ScanState(t, i, start, lo, hi) && i < |t|
    requires i == 0 || !Adjacent(t[i - 1], t[i])
    ensures var replace := start < i - 1 && i - start > (hi - lo) - 1;
      ScanState(t, i + 1, i, if replace then start else lo, if replace then i else hi)
  {
    var replace := start < i - 1 && i - start > (hi - lo) - 1;
    var lo', hi' := if replace then start else lo, if replace then i else hi;
    forall a, b | 0 <= a < b <= i && IsRun(t, a, b) && b - a >= 2
      ensures b - a <= hi' - lo'
      ensures lo' < a ==> b - a < hi' - lo'
    {
      if a < start && start < b {
        RunStopsAtBreak(t, a, b, start);
      }
    }
  }

  lemma ContinueStep(t: seq<Card>, i: int, start: int, lo: int, hi: int)
    requires ScanState(t, i, start, lo, hi) && 0 < i < |t|
    requires Adjacent(t[i - 1], t[i])
    ensures ScanState(t, i + 1, start, lo, hi)
  {
  }

  lemma FinalStep(t: seq<Card>, start: int, lo: int, hi: int)
    requires ScanState(t, |t|, start, lo, hi) && |t| > 0
    ensures var replace := start < |t| - 1 && |t| - 1 - start > (hi - lo) - 1;
      var lo', hi' := if replace then start else lo, if replace then |t| else hi;
      ChosenRun(t, lo', hi')
  {
    var replace := start < |t| - 1 && |t| - 1 - start > (hi - lo) - 1;
    var lo', hi' := if replace then start else lo, if replace then |t| else hi;
    forall a, b | 0 <= a < b <= |t| && IsRun(t, a, b) && b - a >= 2
      ensures b - a <= hi' - lo'
      ensures lo' < a && b - a == hi' - lo' ==> b == |t|
    {
      if a < start && start < b {
        RunStopsAtBreak(t, a, b, start);
      }
    }
  }

  /** The scan loop of `getLongestConsecutiveSubset`: a run ended by a break replaces the best run when it
      is at least as long; the trailing run replaces it only when strictly longer. */
  function ScanRuns(t: seq<Card>, i: int, start: int, lo: int, hi: int): (r: (int, int))
    requires |t| > 0
    requires ScanState(t, i, start, lo, hi)
    ensures LongestRun(t, r.0, r.1)
    ensures LaterTiesTrail(t, r.0, r.1)
    ensures TrailOnlyWhenLonger(t, r.0, r.1)
    decreases |t| - i
  {
    if i == |t| then
      FinalStep(t, start, lo, hi);
      if start < |t| - 1 && |t| - 1 - start > (hi - lo) - 1 then (start, |t|) else (lo, hi)
    else if i == 0 || !Adjacent(t[i - 1], t[i]) then
      BreakStep(t, i, start, lo, hi);
      if start < i - 1 && i - start > (hi - lo) - 1 then ScanRuns(t, i + 1, i, start, i)
      else ScanRuns(t, i + 1, i, lo, hi)
    else
      ContinueStep(t, i, start, lo, hi);
      ScanRuns(t, i + 1, start, lo, hi)
  }

  /** A slice of a run is a sequence whose neighbours are adjacent. */
  lemma RunSlice(t: seq<Card>, lo: int, hi: int)
    requires IsRun(t, lo, hi)
    ensures forall k :: 0 < k < hi - lo ==> Adjacent(t[lo..hi][k - 1], t[lo..hi][k])
  {
    forall k | 0 < k < hi - lo
      ensures Adjacent(t[lo..hi][k - 1], t[lo..hi][k])
    {
      assert t[lo..hi][k] == t[lo + k];
      assert t[lo..hi][k - 1] == t[lo + k - 1];
    }
  }

  /** No run of the ace-extended order is longer than `n` cards. */
  ghost predicate NoRunLonger(t: seq<Card>, n: int) {
    forall a, b :: 0 <= a < b <= |t| && IsRun(t, a, b) && b - a >= 2 ==> b - a <= n
  }

  /** `r` sits in `t` as one contiguous piece. */
  ghost predicate SegmentOf(r: seq<Card>, t: seq<Card>) {
    exists lo, hi :: 0 <= lo <= hi <= |t| && r == t[lo..hi]
  }

  lemma SliceIsSegment(t: seq<Card>, lo: int, hi: int)
    requires 0 <= lo <= hi <= |t|
    ensures SegmentOf(t[lo..hi], t)
  {
  }

  /** `getLongestConsecutiveSubset`: the longest run of the ace-extended rank order (empty when no two
      ranks are consecutive). */
  function LongestConsecutiveSubset(cards: seq<Card>): (r: seq<Card>)
    requires |cards| > 0
    ensures |r| == 0 || |r| >= 2
    ensures forall k :: 0 < k < |r| ==> Adjacent(r[k - 1], r[k])
    ensures forall c :: c in r ==> c in cards
    ensures NoRunLonger(AceExtended(cards), |r|)
    ensures |r| >= 2 ==> !NoRunLonger(AceExtended(cards), |r| - 1)
    ensures SegmentOf(r, AceExtended(cards))
    ensures exists lo, hi :: ChosenRun(AceExtended(cards), lo, hi) && r == AceExtended(cards)[lo..hi]
  {
    var t := AceExtended(cards);
    var lohi := ScanRuns(t, 0, 0, 0, 0);
    ChosenSlice(t, lohi.0, lohi.1);
    t[lohi.0..lohi.1]
  }

  /** What the chosen range says about the cards it holds. */
  lemma ChosenSlice(t: seq<Card>, lo: int, hi: int)
    requires ChosenRun(t, lo, hi)
    ensures var r := t[lo..hi];
      && (|r| == 0 || |r| >= 2)
      && (forall k :: 0 < k < |r| ==> Adjacent(r[k - 1], r[k]))
      && (forall c :: c in r ==> c in t)
      && NoRunLonger(t, |r|)
      && (|r| >= 2 ==> !NoRunLonger(t, |r| - 1))
      && SegmentOf(r, t)
      && exists lo', hi' :: ChosenRun(t, lo', hi') && r == t[lo'..hi']
  {
    RunSlice(t, lo, hi);
    assert hi - lo >= 2 ==> IsRun(t, lo, hi);
    SliceIsSegment(t, lo, hi);
  }

  /** Two overlapping runs join into one. */
  lemma RunUnion(t: seq<Card>, a: int, b: int, c: int, d: int)
    requires IsRun(t, a, b) && IsRun(t, c, d) && a <= c < b <= d
    ensures IsRun(t, a, d)
  {
  }

  /** The choice is unique: two ranges that both meet `ChosenRun` hold the same cards, so the tie-break
      fixes which run comes out. */
  lemma ChosenRunUnique(t: seq<Card>, lo: int, hi: int, lo': int, hi': int)
    requires ChosenRun(t, lo, hi) && ChosenRun(t, lo', hi')
    ensures t[lo..hi] == t[lo'..hi']
  {
    if hi - lo >= 2 && hi' - lo' >= 2 {
      NotBefore(t, lo, hi, lo', hi');
      NotBefore(t, lo', hi', lo, hi);
    }
  }

  /** Of two chosen runs of at least two cards, neither starts before the other. */
  lemma NotBefore(t: seq<Card>, lo: int, hi: int, lo': int, hi': int)
    requires ChosenRun(t, lo, hi) && ChosenRun(t, lo', hi')
    requires hi - lo >= 2 && hi' - lo' >= 2
    ensures lo <= lo' && hi - lo == hi' - lo'
  {
    if lo' < lo {
      assert hi - lo == hi' - lo';
      assert hi == |t|;
      if lo < hi' {
        RunUnion(t, lo', hi', lo, hi);
      }
      assert false;
    }
  }

  /** A bound on run lengths also holds for any larger bound. */
  lemma NoRunLongerWeakens(t: seq<Card>, m: int, n: int)
    requires m <= n
    ensures NoRunLonger(t, m) ==> NoRunLonger(t, n)
  {
  }

  /* ---------------------------------------------------------------- highest rank with n cards */

  /** Rank `q` is a key of the rank distribution whose bucket holds at least `noof` cards. */
  predicate Qualifies(cards: seq<Card>, noof: nat, q: Rank) {
    Count(cards, q) > 0 && Count(cards, q) >= noof
  }

  /** The highest rank not above `top` that qualifies, if any. */
  function HighestQualifying(cards: seq<Card>, noof: nat, top: int): (r: Option<Rank>)
    requires top <= ACE
    ensures r.Some? ==> r.value <= top && Qualifies(cards, noof, r.value)
    ensures r.Some? ==> forall q: Rank :: r.value < q <= top ==> !Qualifies(cards, noof, q)
    ensures r.None? ==> forall q: Rank :: q <= top ==> !Qualifies(cards, noof, q)
    decreases top
  {
    if top < DEUCE then None
    else if Qualifies(cards, noof, top) then Some(top)
    else HighestQualifying(cards, noof, top - 1)
  }

  /** The first `n` cards of a sorted sequence come no later in the order than any card after them. */
  lemma SortedPrefixLowest(order: SortBy, s: seq<Card>, n: nat)
    requires SortedBy(order, s) && n <= |s|
    ensures forall c, d :: c in s && c !in s[..n] && d in s[..n] ==> Key(order, d) <= Key(order, c)
  {
    forall c, d | c in s && c !in s[..n] && d in s[..n]
      ensures Key(order, d) <= Key(order, c)
    {
      var k :| 0 <= k < |s| && s[k] == c;
      var m :| 0 <= m < n && s[m] == d;
      assert s[..n][m] == d;
    }
  }

  /** `getHighestOfSameRank`: the cards of the highest rank with at least `noof` cards, in suit order,
      cut down to `noof`; empty when no rank has that many. */
  function HighestOfSameRank(noof: nat, cards: seq<Card>): (r: seq<Card>)
    ensures |r| == 0 || |r| == noof
    ensures |r| == 0 ==> noof == 0 || forall q: Rank :: !Qualifies(cards, noof, q)
    ensures forall c :: c in r ==> c in cards
    ensures |r| > 0 ==>
      && Qualifies(cards, noof, r[0].rank)
      && (forall c :: c in r ==> c.rank == r[0].rank)
      && (forall q: Rank :: q > r[0].rank ==> !Qualifies(cards, noof, q))
    ensures SortedBy(BySuit, r)
    ensures forall c, d :: c in cards && d in r && c.rank == d.rank && c !in r ==>
      Key(BySuit, d) <= Key(BySuit, c)
    ensures Distinct(cards) ==> Distinct(r)
  {
    match HighestQualifying(cards, noof, ACE)
    case None => []
    case Some(q) =>
      var bucket := SortCards(BySuit, WithRank(cards, q));
      BucketPrefix(cards, noof, q, bucket);
      bucket[..noof]
  }

  /** The first `noof` cards of a qualifying rank's bucket in suit order. */
  lemma BucketPrefix(cards: seq<Card>, noof: nat, q: Rank, bucket: seq<Card>)
    requires Qualifies(cards, noof, q)
    requires bucket == SortCards(BySuit, WithRank(cards, q))
    ensures noof <= |bucket|
    ensures forall c :: c in bucket[..noof] ==> c in cards && c.rank == q
    ensures SortedBy(BySuit, bucket[..noof])
    ensures forall c, d :: c in cards && d in bucket[..noof] && c.rank == d.rank && c !in bucket[..noof] ==>
      Key(BySuit, d) <= Key(BySuit, c)
    ensures Distinct(cards) ==> Distinct(bucket[..noof])
  {
    assert forall c :: c in bucket <==> c in cards && c.rank == q by {
      forall c
        ensures c in bucket <==> c in multiset(WithRank(cards, q))
      {
      }
    }
    SortedPrefixLowest(BySuit, bucket, noof);
    if Distinct(cards) {
      SameCardsKeepDistinct(WithRank(cards, q), bucket);
    }
    PrefixKeeps(BySuit, bucket, noof);
  }

  /** A prefix keeps order, distinctness and membership. */
  lemma PrefixKeeps(order: SortBy, s: seq<Card>, n: nat)
    requires n <= |s|
    ensures forall c :: c in s[..n] ==> c in s
    ensures SortedBy(order, s) ==> SortedBy(order, s[..n])
    ensures RankDescending(s) ==> RankDescending(s[..n])
    ensures Distinct(s) ==> Distinct(s[..n])
  {
    assert forall i :: 0 <= i < n ==> s[..n][i] == s[i];
  }

  /** `getHighestOfSameRankExcluding`: `getHighestOfSameRank` over the cards not of rank `excluded`. */
  function HighestOfSameRankExcluding(noof: nat, cards: seq<Card>, excluded: Rank): (r: seq<Card>)
    ensures forall c :: c in r ==> c in cards && c.rank != excluded
    ensures |r| == 0 || |r| == noof
    ensures |r| == 0 ==> noof == 0 || forall q: Rank :: q != excluded ==> !Qualifies(cards, noof, q)
    ensures |r| > 0 ==>
      && Qualifies(cards, noof, r[0].rank)
      && (forall c :: c in r ==> c.rank == r[0].rank)
      && (forall q: Rank :: q > r[0].rank && q != excluded ==> !Qualifies(cards, noof, q))
    ensures SortedBy(BySuit, r)
    ensures forall c, d :: c in cards && d in r && c.rank == d.rank && c !in r ==>
      Key(BySuit, d) <= Key(BySuit, c)
    ensures Distinct(cards) ==> Distinct(r)
  {
    var active := OtherRanks(cards, excluded);
    var r := HighestOfSameRank(noof, active);
    ExcludingKeepsQualifying(cards, noof, excluded);
    r
  }

  /** The cards whose rank is not `excluded`, in their original order. */
  function OtherRanks(cards: seq<Card>, excluded: Rank): (r: seq<Card>)
    ensures forall c :: c in r <==> c in cards && c.rank != excluded
    ensures Distinct(cards) ==> Distinct(r)
  {
    if |cards| == 0 then []
    else (if cards[0].rank != excluded then [cards[0]] else []) + OtherRanks(cards[1..], excluded)
  }

  /** Dropping one rank leaves the other ranks' counts as they were. */
  lemma {:induction false} OtherRanksCount(cards: seq<Card>, excluded: Rank, q: Rank)
    ensures Count(OtherRanks(cards, excluded), q) == if q == excluded then 0 else Count(cards, q)
  {
    if |cards| > 0 {
      OtherRanksCount(cards[1..], excluded, q);
      var head: seq<Card> := if cards[0].rank != excluded then [cards[0]] else [];
      var tail := OtherRanks(cards[1..], excluded);
      assert OtherRanks(cards, excluded) == head + tail;
      WithRankAppend(head, tail, q);
      assert cards == [cards[0]] + cards[1..];
      WithRankAppend([cards[0]], cards[1..], q);
      assert WithRank(head, q) == if cards[0].rank != excluded && cards[0].rank == q then [cards[0]] else [];
      assert WithRank([cards[0]], q) == if cards[0].rank == q then [cards[0]] else [];
    }
  }

  /** The ranks that qualify once `excluded` is dropped are exactly the other qualifying ranks. */
  lemma ExcludingKeepsQualifying(cards: seq<Card>, noof: nat, excluded: Rank)
    ensures forall q: Rank :: Qualifies(OtherRanks(cards, excluded), noof, q) <==>
      q != excluded && Qualifies(cards, noof, q)
  {
    forall q: Rank
      ensures Qualifies(OtherRanks(cards, excluded), noof, q) <==> q != excluded && Qualifies(cards, noof, q)
    {
      OtherRanksCount(cards, excluded, q);
    }
  }
}
