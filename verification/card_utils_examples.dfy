/** The worked examples in the documentation of the card-list helpers, each computed from the definitions.
    The step lemmas unfold one definition once, so that each example is reached by small steps. */
module CardListUtilsExamples {
  import opened Wrappers
  import opened Cards
  import opened CardListUtils
  import PokerHands

  const FiveHearts := Card(FIVE, Hearts)
  const FiveDiamonds := Card(FIVE, Diamonds)
  const JackDiamonds := Card(JACK, Diamonds)
  const JackSpades := Card(JACK, Spades)
  const ThreeSpades := Card(THREE, Spades)
  const NineClubs := Card(NINE, Clubs)
  const DeuceClubs := Card(DEUCE, Clubs)
  const QueenSpades := Card(QUEEN, Spades)
  const AceDiamonds := Card(ACE, Diamonds)
  const AceSpades := Card(ACE, Spades)
  const KingHearts := Card(KING, Hearts)
  const FourClubs := Card(FOUR, Clubs)

  /* ---------------------------------------------------------------- one step of each definition */

  lemma WithoutStep(target: seq<Card>, ex: seq<Card>, rest: seq<Card>)
    requires |target| > 0 && Without(target[1..], ex) == rest
    ensures Without(target, ex) == if target[0] in ex then rest else [target[0]] + rest
  {
  }

  lemma WithRankStep(s: seq<Card>, q: Rank, rest: seq<Card>)
    requires |s| > 0 && WithRank(s[1..], q) == rest
    ensures WithRank(s, q) == if s[0].rank == q then [s[0]] + rest else rest
  {
  }

  lemma FirstStep(s: seq<Card>, kept: seq<Card>)
    requires |s| > 1 && FirstOfEachRank(s[..|s| - 1]) == kept
    ensures FirstOfEachRank(s) == if s[|s| - 2].rank == s[|s| - 1].rank then kept else kept + [s[|s| - 1]]
  {
  }

  lemma DedupSteps(cards: seq<Card>, sorted: seq<Card>, r: seq<Card>)
    requires SortCards(ByRank, cards) == sorted && FirstOfEachRank(sorted) == r
    ensures RemoveDuplicatesByRankAndSortByRank(cards) == r
  {
  }

  lemma HighestSteps(noof: nat, cards: seq<Card>, ex: seq<Card>, removed: seq<Card>, desc: seq<Card>)
    requires |ex| > 0 && Without(cards, ex) == removed && DescendingByRank(removed) == desc && noof <= |desc|
    ensures HighestSortedAndExclude(noof, cards, Some(ex)) == desc[..noof]
  {
  }

  lemma AceStep(cards: seq<Card>, d: seq<Card>)
    requires |cards| > 0 && RemoveDuplicatesByRankAndSortByRank(cards) == d && d[|d| - 1].rank == ACE
    ensures AceExtended(cards) == [d[|d| - 1]] + d
  {
  }

  /** Exchanging two neighbouring blocks keeps the cards. */
  lemma SwapBlocks(x: seq<Card>, a: seq<Card>, b: seq<Card>, y: seq<Card>)
    ensures multiset(x + a + b + y) == multiset(x + b + a + y)
  {
  }

  /** Six blocks rearranged keep the cards. */
  lemma Rearrange(a: seq<Card>, b: seq<Card>, c: seq<Card>, d: seq<Card>, e: seq<Card>, f: seq<Card>)
    ensures multiset(a + b + c + d + e + f) == multiset(d + b + f + a + e + c)
  {
  }

  /** A card of none of the given rank means no card of that rank is counted. */
  lemma NoneOfRank(s: seq<Card>, q: Rank)
    requires forall i :: 0 <= i < |s| ==> s[i].rank != q
    ensures Count(s, q) == 0
  {
    if Count(s, q) > 0 {
      assert WithRank(s, q)[0] in WithRank(s, q);
    }
  }

  /* ---------------------------------------------------------------- removeDuplicatesByRankAndSortByRank */

  lemma FiveRearranged()
    ensures multiset([FiveHearts, JackDiamonds, ThreeSpades, FiveDiamonds, JackSpades]) ==
      multiset([ThreeSpades, FiveDiamonds, FiveHearts, JackDiamonds, JackSpades])
  {
    assert [FiveHearts, JackDiamonds] + [ThreeSpades, FiveDiamonds] + [JackSpades] ==
      [FiveHearts, JackDiamonds, ThreeSpades, FiveDiamonds, JackSpades];
    assert [ThreeSpades, FiveDiamonds] + [FiveHearts, JackDiamonds] + [JackSpades] ==
      [ThreeSpades, FiveDiamonds, FiveHearts, JackDiamonds, JackSpades];
    SwapBlocks([], [FiveHearts, JackDiamonds], [ThreeSpades, FiveDiamonds], [JackSpades]);
  }

  lemma FiveInRankOrder()
    ensures var s := [Card(THREE, Spades), Card(FIVE, Diamonds), Card(FIVE, Hearts), Card(JACK, Diamonds),
                      Card(JACK, Spades)];
      forall i :: 0 < i < |s| ==> Key(ByRank, s[i - 1]) <= Key(ByRank, s[i])
  {
  }

  lemma SortFiveByRank()
    ensures SortCards(ByRank, [FiveHearts, JackDiamonds, ThreeSpades, FiveDiamonds, JackSpades]) ==
      [ThreeSpades, FiveDiamonds, FiveHearts, JackDiamonds, JackSpades]
  {
    FiveRearranged();
    FiveInRankOrder();
    SortedPermutationIsSort(ByRank, [FiveHearts, JackDiamonds, ThreeSpades, FiveDiamonds, JackSpades],
      [ThreeSpades, FiveDiamonds, FiveHearts, JackDiamonds, JackSpades]);
  }

  lemma FirstOfFive()
    ensures FirstOfEachRank([ThreeSpades, FiveDiamonds, FiveHearts, JackDiamonds, JackSpades]) ==
      [ThreeSpades, FiveDiamonds, JackDiamonds]
  {
    assert FirstOfEachRank([ThreeSpades]) == [ThreeSpades];
    assert [ThreeSpades, FiveDiamonds][..1] == [ThreeSpades];
    FirstStep([ThreeSpades, FiveDiamonds], [ThreeSpades]);
    assert [ThreeSpades, FiveDiamonds, FiveHearts][..2] == [ThreeSpades, FiveDiamonds];
    FirstStep([ThreeSpades, FiveDiamonds, FiveHearts], [ThreeSpades, FiveDiamonds]);
    assert [ThreeSpades, FiveDiamonds, FiveHearts, JackDiamonds][..3] == [ThreeSpades, FiveDiamonds, FiveHearts];
    FirstStep([ThreeSpades, FiveDiamonds, FiveHearts, JackDiamonds], [ThreeSpades, FiveDiamonds]);
    assert [ThreeSpades, FiveDiamonds, FiveHearts, JackDiamonds, JackSpades][..4] ==
      [ThreeSpades, FiveDiamonds, FiveHearts, JackDiamonds];
    FirstStep([ThreeSpades, FiveDiamonds, FiveHearts, JackDiamonds, JackSpades],
      [ThreeSpades, FiveDiamonds, JackDiamonds]);
  }

  /** {5h, Jd, 3s, 5d, Js} gives {3s, 5d, Jd}: one card per rank, the lowest suit of each. */
  lemma RemoveDuplicatesExample()
    ensures RemoveDuplicatesByRankAndSortByRank([FiveHearts, JackDiamonds, ThreeSpades, FiveDiamonds, JackSpades]) ==
      [ThreeSpades, FiveDiamonds, JackDiamonds]
  {
    SortFiveByRank();
    FirstOfFive();
    DedupSteps([FiveHearts, JackDiamonds, ThreeSpades, FiveDiamonds, JackSpades],
      [ThreeSpades, FiveDiamonds, FiveHearts, JackDiamonds, JackSpades], [ThreeSpades, FiveDiamonds, JackDiamonds]);
  }

  /* ---------------------------------------------------------------- getHighestSortedAndExclude */

  /** Computation steps, not properties: `Without` on the example's list, one more leading card each time. */
  lemma WithoutOne()
    ensures Without([QueenSpades], [QueenSpades, NineClubs]) == []
  {
    assert [QueenSpades][1..] == [];
    WithoutStep([QueenSpades], [QueenSpades, NineClubs], []);
  }

  lemma WithoutTwo()
    ensures Without([DeuceClubs, QueenSpades], [QueenSpades, NineClubs]) == [DeuceClubs]
  {
    WithoutOne();
    assert [DeuceClubs, QueenSpades][1..] == [QueenSpades];
    WithoutStep([DeuceClubs, QueenSpades], [QueenSpades, NineClubs], []);
  }

  lemma WithoutThree()
    ensures Without([JackDiamonds, DeuceClubs, QueenSpades], [QueenSpades, NineClubs]) == [JackDiamonds, DeuceClubs]
  {
    WithoutTwo();
    assert [JackDiamonds, DeuceClubs, QueenSpades][1..] == [DeuceClubs, QueenSpades];
    WithoutStep([JackDiamonds, DeuceClubs, QueenSpades], [QueenSpades, NineClubs], [DeuceClubs]);
  }

  lemma WithoutFour()
    ensures Without([NineClubs, JackDiamonds, DeuceClubs, QueenSpades], [QueenSpades, NineClubs]) ==
      [JackDiamonds, DeuceClubs]
  {
    WithoutThree();
    assert [NineClubs, JackDiamonds, DeuceClubs, QueenSpades][1..] == [JackDiamonds, DeuceClubs, QueenSpades];
    WithoutStep([NineClubs, JackDiamonds, DeuceClubs, QueenSpades], [QueenSpades, NineClubs],
      [JackDiamonds, DeuceClubs]);
  }

  lemma WithoutFive()
    ensures Without([FiveDiamonds, NineClubs, JackDiamonds, DeuceClubs, QueenSpades], [QueenSpades, NineClubs]) ==
      [FiveDiamonds, JackDiamonds, DeuceClubs]
  {
    WithoutFour();
    assert [FiveDiamonds, NineClubs, JackDiamonds, DeuceClubs, QueenSpades][1..] ==
      [NineClubs, JackDiamonds, DeuceClubs, QueenSpades];
    WithoutStep([FiveDiamonds, NineClubs, JackDiamonds, DeuceClubs, QueenSpades], [QueenSpades, NineClubs],
      [JackDiamonds, DeuceClubs]);
  }

  lemma ReverseThree()
    ensures Reverse([DeuceClubs, FiveDiamonds, JackDiamonds]) == [JackDiamonds, FiveDiamonds, DeuceClubs]
  {
    var r := Reverse([DeuceClubs, FiveDiamonds, JackDiamonds]);
    assert r[0] == JackDiamonds && r[1] == FiveDiamonds && r[2] == DeuceClubs;
  }

  lemma ThreeRearranged()
    ensures multiset([FiveDiamonds, JackDiamonds, DeuceClubs]) == multiset([DeuceClubs, FiveDiamonds, JackDiamonds])
  {
    assert [FiveDiamonds, JackDiamonds] + [DeuceClubs] == [FiveDiamonds, JackDiamonds, DeuceClubs];
    assert [DeuceClubs] + [FiveDiamonds, JackDiamonds] == [DeuceClubs, FiveDiamonds, JackDiamonds];
    SwapBlocks([], [FiveDiamonds, JackDiamonds], [DeuceClubs], []);
  }

  lemma ThreeInRankOrder()
    ensures var s := [Card(DEUCE, Clubs), Card(FIVE, Diamonds), Card(JACK, Diamonds)];
      forall i :: 0 < i < |s| ==> Key(ByRank, s[i - 1]) <= Key(ByRank, s[i])
  {
  }

  lemma DescendingThree()
    ensures DescendingByRank([FiveDiamonds, JackDiamonds, DeuceClubs]) == [JackDiamonds, FiveDiamonds, DeuceClubs]
  {
    ThreeRearranged();
    ThreeInRankOrder();
    SortedPermutationIsSort(ByRank, [FiveDiamonds, JackDiamonds, DeuceClubs], [DeuceClubs, FiveDiamonds, JackDiamonds]);
    ReverseThree();
  }

  lemma TakeTwo()
    ensures [JackDiamonds, FiveDiamonds, DeuceClubs][..2] == [JackDiamonds, FiveDiamonds]
  {
  }

  /** {5d, 9c, Jd, 2c, Qs} without {Qs, 9c}, two cards: {Jd, 5d}. */
  lemma HighestSortedAndExcludeExample()
    ensures HighestSortedAndExclude(2, [FiveDiamonds, NineClubs, JackDiamonds, DeuceClubs, QueenSpades],
      Some([QueenSpades, NineClubs])) == [JackDiamonds, FiveDiamonds]
  {
    WithoutFive();
    DescendingThree();
    TakeTwo();
    HighestSteps(2, [FiveDiamonds, NineClubs, JackDiamonds, DeuceClubs, QueenSpades], [QueenSpades, NineClubs],
      [FiveDiamonds, JackDiamonds, DeuceClubs], [JackDiamonds, FiveDiamonds, DeuceClubs]);
  }

  /* ---------------------------------------------------------------- getHighestOfSameRank */

  /** Computation steps, not properties: the jacks of the example's list, one more leading card each time. */
  lemma JacksOfOne()
    ensures WithRank([JackSpades], JACK) == [JackSpades]
  {
    assert [JackSpades][1..] == [];
    WithRankStep([JackSpades], JACK, []);
  }

  lemma JacksOfTwo()
    ensures WithRank([FiveDiamonds, JackSpades], JACK) == [JackSpades]
  {
    JacksOfOne();
    assert [FiveDiamonds, JackSpades][1..] == [JackSpades];
    WithRankStep([FiveDiamonds, JackSpades], JACK, [JackSpades]);
  }

  lemma JacksOfThree()
    ensures WithRank([ThreeSpades, FiveDiamonds, JackSpades], JACK) == [JackSpades]
  {
    JacksOfTwo();
    assert [ThreeSpades, FiveDiamonds, JackSpades][1..] == [FiveDiamonds, JackSpades];
    WithRankStep([ThreeSpades, FiveDiamonds, JackSpades], JACK, [JackSpades]);
  }

  lemma JacksOfFour()
    ensures WithRank([JackDiamonds, ThreeSpades, FiveDiamonds, JackSpades], JACK) == [JackDiamonds, JackSpades]
  {
    JacksOfThree();
    assert [JackDiamonds, ThreeSpades, FiveDiamonds, JackSpades][1..] == [ThreeSpades, FiveDiamonds, JackSpades];
    WithRankStep([JackDiamonds, ThreeSpades, FiveDiamonds, JackSpades], JACK, [JackSpades]);
  }

  lemma JacksOfFive()
    ensures WithRank([FiveHearts, JackDiamonds, ThreeSpades, FiveDiamonds, JackSpades], JACK) ==
      [JackDiamonds, JackSpades]
  {
    JacksOfFour();
    assert [FiveHearts, JackDiamonds, ThreeSpades, FiveDiamonds, JackSpades][1..] ==
      [JackDiamonds, ThreeSpades, FiveDiamonds, JackSpades];
    WithRankStep([FiveHearts, JackDiamonds, ThreeSpades, FiveDiamonds, JackSpades], JACK, [JackDiamonds, JackSpades]);
  }

  lemma JackIsHighestPair()
    ensures HighestQualifying([FiveHearts, JackDiamonds, ThreeSpades, FiveDiamonds, JackSpades], 2, ACE) == Some(JACK)
  {
    var cards := [FiveHearts, JackDiamonds, ThreeSpades, FiveDiamonds, JackSpades];
    JacksOfFive();
    assert Qualifies(cards, 2, JACK);
    NoneOfRank(cards, QUEEN);
    NoneOfRank(cards, KING);
    NoneOfRank(cards, ACE);
  }

  lemma JacksBySuit()
    ensures SortCards(BySuit, [JackDiamonds, JackSpades]) == [JackDiamonds, JackSpades]
    ensures [JackDiamonds, JackSpades][..2] == [JackDiamonds, JackSpades]
  {
    SortedPermutationIsSort(BySuit, [JackDiamonds, JackSpades], [JackDiamonds, JackSpades]);
  }

  /** Two of a rank among {5h, Jd, 3s, 5d, Js}: the jacks, {Jd, Js}. */
  lemma HighestOfSameRankExample()
    ensures HighestOfSameRank(2, [FiveHearts, JackDiamonds, ThreeSpades, FiveDiamonds, JackSpades]) ==
      [JackDiamonds, JackSpades]
  {
    JackIsHighestPair();
    JacksOfFive();
    JacksBySuit();
  }

  /* ---------------------------------------------------------------- getLongestConsecutiveSubset */

  lemma SevenRearranged()
    ensures multiset([FiveHearts, ThreeSpades, AceDiamonds, AceSpades, DeuceClubs, KingHearts, FourClubs]) ==
      multiset([DeuceClubs, ThreeSpades, FourClubs, FiveHearts, KingHearts, AceDiamonds, AceSpades])
  {
    assert [FiveHearts] + [ThreeSpades] + [AceDiamonds, AceSpades] + [DeuceClubs] + [KingHearts] + [FourClubs] ==
      [FiveHearts, ThreeSpades, AceDiamonds, AceSpades, DeuceClubs, KingHearts, FourClubs];
    assert [DeuceClubs] + [ThreeSpades] + [FourClubs] + [FiveHearts] + [KingHearts] + [AceDiamonds, AceSpades] ==
      [DeuceClubs, ThreeSpades, FourClubs, FiveHearts, KingHearts, AceDiamonds, AceSpades];
    Rearrange([FiveHearts], [ThreeSpades], [AceDiamonds, AceSpades], [DeuceClubs], [KingHearts], [FourClubs]);
  }

  lemma SevenInRankOrder()
    ensures var s := [Card(DEUCE, Clubs), Card(THREE, Spades), Card(FOUR, Clubs), Card(FIVE, Hearts),
                      Card(KING, Hearts), Card(ACE, Diamonds), Card(ACE, Spades)];
      forall i :: 0 < i < |s| ==> Key(ByRank, s[i - 1]) <= Key(ByRank, s[i])
  {
  }

  lemma SortSevenByRank()
    ensures SortCards(ByRank, [FiveHearts, ThreeSpades, AceDiamonds, AceSpades, DeuceClubs, KingHearts, FourClubs]) ==
      [DeuceClubs, ThreeSpades, FourClubs, FiveHearts, KingHearts, AceDiamonds, AceSpades]
  {
    SevenRearranged();
    SevenInRankOrder();
    SortedPermutationIsSort(ByRank, [FiveHearts, ThreeSpades, AceDiamonds, AceSpades, DeuceClubs, KingHearts, FourClubs],
      [DeuceClubs, ThreeSpades, FourClubs, FiveHearts, KingHearts, AceDiamonds, AceSpades]);
  }

  /** Computation steps, not properties: the first card of each rank of the sorted seven cards, one more
      trailing card each time. */
  lemma FirstOfThree()
    ensures FirstOfEachRank([DeuceClubs, ThreeSpades, FourClubs]) == [DeuceClubs, ThreeSpades, FourClubs]
  {
    assert FirstOfEachRank([DeuceClubs]) == [DeuceClubs];
    assert [DeuceClubs, ThreeSpades][..1] == [DeuceClubs];
    FirstStep([DeuceClubs, ThreeSpades], [DeuceClubs]);
    assert [DeuceClubs, ThreeSpades, FourClubs][..2] == [DeuceClubs, ThreeSpades];
    FirstStep([DeuceClubs, ThreeSpades, FourClubs], [DeuceClubs, ThreeSpades]);
  }

  lemma FirstOfFiveRanks()
    ensures FirstOfEachRank([DeuceClubs, ThreeSpades, FourClubs, FiveHearts, KingHearts]) ==
      [DeuceClubs, ThreeSpades, FourClubs, FiveHearts, KingHearts]
  {
    FirstOfThree();
    assert [DeuceClubs, ThreeSpades, FourClubs, FiveHearts][..3] == [DeuceClubs, ThreeSpades, FourClubs];
    FirstStep([DeuceClubs, ThreeSpades, FourClubs, FiveHearts], [DeuceClubs, ThreeSpades, FourClubs]);
    assert [DeuceClubs, ThreeSpades, FourClubs, FiveHearts, KingHearts][..4] ==
      [DeuceClubs, ThreeSpades, FourClubs, FiveHearts];
    FirstStep([DeuceClubs, ThreeSpades, FourClubs, FiveHearts, KingHearts],
      [DeuceClubs, ThreeSpades, FourClubs, FiveHearts]);
  }

  lemma FirstOfSix()
    ensures FirstOfEachRank([DeuceClubs, ThreeSpades, FourClubs, FiveHearts, KingHearts, AceDiamonds]) ==
      [DeuceClubs, ThreeSpades, FourClubs, FiveHearts, KingHearts, AceDiamonds]
  {
    FirstOfFiveRanks();
    assert [DeuceClubs, ThreeSpades, FourClubs, FiveHearts, KingHearts, AceDiamonds][..5] ==
      [DeuceClubs, ThreeSpades, FourClubs, FiveHearts, KingHearts];
    FirstStep([DeuceClubs, ThreeSpades, FourClubs, FiveHearts, KingHearts, AceDiamonds],
      [DeuceClubs, ThreeSpades, FourClubs, FiveHearts, KingHearts]);
  }

  lemma FirstOfSeven()
    ensures FirstOfEachRank([DeuceClubs, ThreeSpades, FourClubs, FiveHearts, KingHearts, AceDiamonds, AceSpades]) ==
      [DeuceClubs, ThreeSpades, FourClubs, FiveHearts, KingHearts, AceDiamonds]
  {
    FirstOfSix();
    assert [DeuceClubs, ThreeSpades, FourClubs, FiveHearts, KingHearts, AceDiamonds, AceSpades][..6] ==
      [DeuceClubs, ThreeSpades, FourClubs, FiveHearts, KingHearts, AceDiamonds];
    FirstStep([DeuceClubs, ThreeSpades, FourClubs, FiveHearts, KingHearts, AceDiamonds, AceSpades],
      [DeuceClubs, ThreeSpades, FourClubs, FiveHearts, KingHearts, AceDiamonds]);
  }

  lemma DedupSeven()
    ensures RemoveDuplicatesByRankAndSortByRank([FiveHearts, ThreeSpades, AceDiamonds, AceSpades, DeuceClubs, KingHearts,
      FourClubs]) == [DeuceClubs, ThreeSpades, FourClubs, FiveHearts, KingHearts, AceDiamonds]
  {
    SortSevenByRank();
    FirstOfSeven();
    DedupSteps([FiveHearts, ThreeSpades, AceDiamonds, AceSpades, DeuceClubs, KingHearts, FourClubs],
      [DeuceClubs, ThreeSpades, FourClubs, FiveHearts, KingHearts, AceDiamonds, AceSpades],
      [DeuceClubs, ThreeSpades, FourClubs, FiveHearts, KingHearts, AceDiamonds]);
  }

  lemma AceExtendedSeven()
    ensures AceExtended([FiveHearts, ThreeSpades, AceDiamonds, AceSpades, DeuceClubs, KingHearts, FourClubs]) ==
      [AceDiamonds, DeuceClubs, ThreeSpades, FourClubs, FiveHearts, KingHearts, AceDiamonds]
  {
    assert [DeuceClubs, ThreeSpades, FourClubs, FiveHearts, KingHearts, AceDiamonds][5] == AceDiamonds;
    assert [AceDiamonds] + [DeuceClubs, ThreeSpades, FourClubs, FiveHearts, KingHearts, AceDiamonds] ==
      [AceDiamonds, DeuceClubs, ThreeSpades, FourClubs, FiveHearts, KingHearts, AceDiamonds];
    DedupSeven();
    AceStep([FiveHearts, ThreeSpades, AceDiamonds, AceSpades, DeuceClubs, KingHearts, FourClubs],
      [DeuceClubs, ThreeSpades, FourClubs, FiveHearts, KingHearts, AceDiamonds]);
  }

  /** When the ace-extended order opens with a run of `k` cards that the next card breaks, and no other run can
      be as long, that opening run is the longest consecutive subset. */
  lemma LongestIsBrokenPrefix(t: seq<Card>, r: seq<Card>, k: int)
    requires 2 <= k < |t| < 2 * k && IsRun(t, 0, k) && !Adjacent(t[k - 1], t[k])
    requires SegmentOf(r, t) && NoRunLonger(t, |r|)
    requires forall i :: 0 < i < |r| ==> Adjacent(r[i - 1], r[i])
    ensures r == t[..k]
  {
    assert k <= |r|;
    var lo, hi :| 0 <= lo <= hi <= |t| && r == t[lo..hi];
    assert IsRun(t, lo, hi) by {
      forall i | lo < i < hi
        ensures Adjacent(t[i - 1], t[i])
      {
        assert t[i - 1] == r[i - 1 - lo] && t[i] == r[i - lo];
      }
    }
  }

  lemma WheelRun()
    ensures var t := [AceDiamonds, DeuceClubs, ThreeSpades, FourClubs, FiveHearts, KingHearts, AceDiamonds];
      IsRun(t, 0, 5) && !Adjacent(t[4], t[5]) && t[..5] == [AceDiamonds, DeuceClubs, ThreeSpades, FourClubs, FiveHearts]
  {
  }

  /** {5h, 3s, Ad, As, 2c, Kh, 4c} gives the wheel {Ad, 2c, 3s, 4c, 5h}, the ace played low. */
  lemma LongestConsecutiveSubsetExample()
    ensures LongestConsecutiveSubset([FiveHearts, ThreeSpades, AceDiamonds, AceSpades, DeuceClubs, KingHearts,
      FourClubs]) == [AceDiamonds, DeuceClubs, ThreeSpades, FourClubs, FiveHearts]
  {
    WheelRun();
    AceExtendedSeven();
    LongestIsBrokenPrefix([AceDiamonds, DeuceClubs, ThreeSpades, FourClubs, FiveHearts, KingHearts, AceDiamonds],
      LongestConsecutiveSubset([FiveHearts, ThreeSpades, AceDiamonds, AceSpades, DeuceClubs, KingHearts, FourClubs]), 5);
  }

  /** The five cards of the wheel turned round: five first, the ace last. */
  lemma ReverseWheel()
    ensures Reverse([AceDiamonds, DeuceClubs, ThreeSpades, FourClubs, FiveHearts]) ==
      [FiveHearts, FourClubs, ThreeSpades, DeuceClubs, AceDiamonds]
  {
    var r := Reverse([AceDiamonds, DeuceClubs, ThreeSpades, FourClubs, FiveHearts]);
    assert r[0] == FiveHearts && r[1] == FourClubs && r[2] == ThreeSpades && r[3] == DeuceClubs && r[4] == AceDiamonds;
  }

  /** The wheel is a straight whose cards come highest first, with the ace played low at the end:
      5h, 4c, 3s, 2c, Ad. */
  lemma WheelStraight()
    ensures PokerHands.IsStraight([FiveHearts, ThreeSpades, AceDiamonds, AceSpades, DeuceClubs, KingHearts, FourClubs])
      == Some(PokerHands.GameHand([FiveHearts, FourClubs, ThreeSpades, DeuceClubs, AceDiamonds], PokerHands.Straight))
  {
    LongestConsecutiveSubsetExample();
    ReverseWheel();
    var run := [AceDiamonds, DeuceClubs, ThreeSpades, FourClubs, FiveHearts];
    assert run[|run| - 5..] == run;
  }
}
