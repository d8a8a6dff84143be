# perforator-bot card engine, modelled in Dafny

This project models the card-evaluation engine of the perforator poker bot and the small rule tables
around it, as pure Dafny functions over immutable data, and proves what each part promises.

- **Cards** (`cards.dfy`): ranks DEUCE..ACE as the order values 2..14, four suits, cards, rank and
  suit buckets, and the 52-card deck.
- **Card-list helpers** (`card_utils.dfy`, module `CardListUtils`): the rank and suit distributions,
  `merge` and `remove`, the two sort orders, `getHighestSortedAndExclude`,
  `removeDuplicatesByRankAndSortByRank`, the wheel-aware `getLongestConsecutiveSubset` scan, and
  `getHighestOfSameRank` with its excluding variant. `card_utils_examples.dfy` computes the worked
  examples of their documentation from the definitions.
- **Best-hand evaluator** (`poker_hands.dfy`): every category check of `PokerHandUtils` and the
  priority chain of `getBestHand`.
- **Hand order** (`hand_order.dfy`): `Hand.compareTo` and the pocket-card count.
- **Ranking service** (`hand_ranking.dfy`): the pool of unseen cards, the cache keyed by card
  count, the enumeration of every opponent pocket pair, the stable sort, and the percentile of the
  real hand. A small class holds the state for `resetDeck`, `getCardsInRankingDeck` and
  `getRanking`.
- **Pre-flop tables** (`pocket_rules.dfy`, `starting_hands.dfy`, `steal_types.dfy`): the
  pocket-card predicates, the four starting-hand tiers and the two steal types.
- **Selection rules** (`action_utils.dfy`, `positions.dfy`, `play_state.dfy`,
  `preflop_strategy.dfy`): the action choosers, the position table, the seating rotation and the
  pre-flop decision rules with their raise counter.

Java `null` arguments and results are `Option` values. The exceptions the code can throw are
`Failure` values of `Result`: null arguments, failed state checks, out-of-range indexes and a null
dereference.

Two details of the card comparators are not part of this model, so they are fixed here:
- Cards of equal rank are ordered by suit, clubs < diamonds < hearts < spades.
- The RANK order sorts by rank, then suit.
- The SUIT order sorts by suit, then rank.

Both orders tell any two different cards apart, so any sorting algorithm gives the same list. The
sort is modelled as insertion sort, and `CardListUtils.SortedUnique` proves that any sorted
permutation is that same list.

The category order values are HIGH_HAND = 1 up to ROYAL_FLUSH = 10. The cards each category needs
are four for four of a kind, three for three of a kind, four for two pairs, two for one pair, one
for a high hand and five otherwise.

`getLongestConsecutiveSubset` settles ties between runs of equal length as the code does:
- A run closed by a break replaces the best run so far when it is at least as long.
- The trailing run replaces it only when strictly longer.

`CardListUtils.ChosenRun` states this rule in three parts. `LongestRun` says no run is longer.
`LaterTiesTrail` says any later run of the same length is the trailing run. `TrailOnlyWhenLonger` says the
trailing run is chosen only when it is strictly longer than every run before it.
`CardListUtils.ScanRuns` ends on such a run. `CardListUtils.ChosenRunUnique` shows the rule fixes the
cards: any two ranges it accepts hold the same cards. A plain "first longest run wins" description of the
method does not match the code; the model follows the code.

## Model

| member | source | states |
|---|---|---|
| Cards.WithRank | src/main/java/se/cygni/texasholdem/player/utils/CardUtils.java:26-39 | The bucket of one rank holds exactly the input cards of that rank, in input order, without duplicates when the input has none. |
| Cards.WithRankAppend | src/main/java/se/cygni/texasholdem/player/utils/CardUtils.java:26-39 | Bucketing by rank distributes over concatenation, so buckets built card by card agree with buckets of the whole list. |
| Cards.DeckFrom | src/main/java/se/cygni/texasholdem/player/postflop/HandRankingServiceImpl.java:23-30 | The deck built rank by rank holds every card of rank `from` or above exactly once; 52 cards from the deuce. |
| Cards.FullDeck | src/main/java/se/cygni/texasholdem/player/postflop/HandRankingServiceImpl.java:23-30 | The full deck as a set contains every card and has 52 elements. |
| Cards.CountAtMostFour | src/main/java/se/cygni/texasholdem/player/utils/CardUtils.java:26-39 | Different cards of one rank number at most four, so no rank bucket ever exceeds four cards. |
| CardListUtils.RankDistribution | src/main/java/se/cygni/texasholdem/player/utils/CardUtils.java:26-39 | The rank map has a key exactly for the ranks present, and each value is the cards of that rank in input order. |
| CardListUtils.SuitDistribution | src/main/java/se/cygni/texasholdem/player/utils/CardUtils.java:47-60 | The suit map has a key exactly for the suits present, and each value is the cards of that suit in input order. |
| CardListUtils.RankDistributionPartitions | src/main/java/se/cygni/texasholdem/player/utils/CardUtils.java:26-39 | The rank buckets partition the input: their sizes add up to the number of cards. |
| CardListUtils.Merge | src/main/java/se/cygni/texasholdem/player/utils/CardUtils.java:70-83 | Both lists present give the first followed by the second; one null list gives the other list; two null lists give the empty list. |
| CardListUtils.Remove | src/main/java/se/cygni/texasholdem/player/utils/CardUtils.java:94-110 | A card is kept exactly when it is in the target and not in the removal list; a null or empty removal list gives the target unchanged. |
| CardListUtils.WithoutDistributes | src/main/java/se/cygni/texasholdem/player/utils/CardUtils.java:94-110 | Removal works card by card, so it distributes over concatenation and keeps the relative order of what stays. |
| CardListUtils.RemoveSameMembers | src/main/java/se/cygni/texasholdem/player/utils/CardUtils.java:94-110 | Removal depends only on which cards are removed, not on their order or repetition. |
| CardListUtils.MergeThenRemove | src/main/java/se/cygni/texasholdem/player/utils/CardUtils.java:70-110 | Removing the merged-in list from a merge gives back the first list when the two share no card. |
| CardListUtils.WithoutCount | src/main/java/se/cygni/texasholdem/player/utils/CardUtils.java:94-110 | Removing k different cards that are all present from a duplicate-free list leaves exactly k fewer cards. |
| CardListUtils.SortCards | src/main/java/se/cygni/texasholdem/player/utils/CardUtils.java:147-154 | Sorting gives a permutation of the input, in comparator order. |
| CardListUtils.SortedUnique | src/main/java/se/cygni/texasholdem/player/utils/CardUtils.java:147-154 | Because both comparators tell any two cards apart, two sorted arrangements of the same cards are equal, so the sort result is determined. |
| CardListUtils.SortedPermutationIsSort | src/main/java/se/cygni/texasholdem/player/utils/CardUtils.java:147-154 | Any permutation of the cards whose neighbours are in comparator order is the one the sort produces. |
| CardListUtils.InsertKeepsSorted | src/main/java/se/cygni/texasholdem/player/utils/CardUtils.java:147-154 | Inserting a card into a sorted list keeps it sorted. |
| CardListUtils.ReverseKeepsCards | src/main/java/se/cygni/texasholdem/player/utils/CardUtils.java:124-138 | Reversal keeps the cards with their multiplicities. |
| CardListUtils.DescendingByRank | src/main/java/se/cygni/texasholdem/player/utils/CardUtils.java:124-138 | Sorting by rank and reversing gives a permutation of the input with ranks never increasing. |
| CardListUtils.HighestSortedAndExclude | src/main/java/se/cygni/texasholdem/player/utils/CardUtils.java:124-138 | The result has min(noof, number of non-excluded cards) cards, none of them excluded, and no duplicates when the input has none. |
| CardListUtils.HighestAreHighest | src/main/java/se/cygni/texasholdem/player/utils/CardUtils.java:124-138 | The picked cards come highest rank first, and every non-excluded card left out ranks no higher than every card picked. |
| CardListUtils.FirstOfEachRankIncreasing | src/main/java/se/cygni/texasholdem/player/utils/CardUtils.java:232-246 | On a rank-sorted list, keeping the first card of each rank gives strictly increasing ranks. |
| CardListUtils.FirstOfEachRankCoversRanks | src/main/java/se/cygni/texasholdem/player/utils/CardUtils.java:232-246 | Keeping the first card of each rank loses no rank. |
| CardListUtils.RemoveDuplicatesByRankAndSortByRank | src/main/java/se/cygni/texasholdem/player/utils/CardUtils.java:232-246 | The result has input cards with strictly increasing ranks, exactly one per input rank, each with the lowest suit of its rank. |
| CardListUtils.ScanRuns | src/main/java/se/cygni/texasholdem/player/utils/CardUtils.java:184-217 | The scan ends on a longest run of the ace-extended order; any later run of that length is the trailing run; and the trailing run is chosen only when every earlier run is strictly shorter. |
| CardListUtils.LongestConsecutiveSubset | src/main/java/se/cygni/texasholdem/player/utils/CardUtils.java:169-220 | The result is empty or a run of at least two cards, each following the one before it (rank plus one, or deuce after ace); no run of the ace-extended order is longer; and it is exactly the cards of a range that the tie-break rule `ChosenRun` accepts. |
| CardListUtils.ChosenRunUnique | src/main/java/se/cygni/texasholdem/player/utils/CardUtils.java:184-217 | Two ranges the tie-break rule both accept hold the same cards, so the rule decides the result. |
| CardListUtils.ChosenSlice | src/main/java/se/cygni/texasholdem/player/utils/CardUtils.java:184-217 | The cards of an accepted range are empty or a run of at least two, not shorter than any other run, one piece of the ace-extended order. |
| CardListUtils.AceExtendedIncreasing | src/main/java/se/cygni/texasholdem/player/utils/CardUtils.java:169-183 | After the leading ace copy, the ace-extended order has strictly increasing ranks. |
| CardListUtils.HighestQualifying | src/main/java/se/cygni/texasholdem/player/utils/CardUtils.java:284-307 | The rank found is the highest rank not above the limit that holds at least noof cards; none is found only when no such rank exists. |
| CardListUtils.HighestOfSameRank | src/main/java/se/cygni/texasholdem/player/utils/CardUtils.java:284-307 | The result is noof cards of the highest rank that has at least noof, in suit order, taking the lowest suits; it is empty exactly when no rank has that many. |
| CardListUtils.HighestOfSameRankExcluding | src/main/java/se/cygni/texasholdem/player/utils/CardUtils.java:259-272 | The result never holds a card of the excluded rank. It is noof cards of the highest other rank with at least noof, in suit order, and no card of that rank left out has a lower suit than one taken. It is empty when there is no such rank. |
| CardListUtils.ExcludingKeepsQualifying | src/main/java/se/cygni/texasholdem/player/utils/CardUtils.java:259-272 | After dropping the excluded rank, the ranks that qualify are exactly the other ranks that qualified before. |
| CardListUtilsExamples.HighestSortedAndExcludeExample | src/main/java/se/cygni/texasholdem/player/utils/CardUtils.java:112-138 | Two highest cards of {5d, 9c, Jd, 2c, Qs} without {Qs, 9c} are {Jd, 5d}, as documented. |
| CardListUtilsExamples.RemoveDuplicatesExample | src/main/java/se/cygni/texasholdem/player/utils/CardUtils.java:222-246 | {5h, Jd, 3s, 5d, Js} gives {3s, 5d, Jd}, as documented. |
| CardListUtilsExamples.LongestConsecutiveSubsetExample | src/main/java/se/cygni/texasholdem/player/utils/CardUtils.java:156-220 | {5h, 3s, Ad, As, 2c, Kh, 4c} gives the wheel {Ad, 2c, 3s, 4c, 5h}, as documented. |
| CardListUtilsExamples.HighestOfSameRankExample | src/main/java/se/cygni/texasholdem/player/utils/CardUtils.java:274-307 | Two of a rank among {5h, Jd, 3s, 5d, Js} gives {Jd, Js}, as documented. |
| CardListUtilsExamples.WheelStraight | src/main/java/se/cygni/texasholdem/player/utils/PokerHandUtils.java:202-219 | The wheel comes out as a straight highest first, 5h, 4c, 3s, 2c, Ad, with the ace played low. |
| PokerHands.SuitOfFiveCards | src/main/java/se/cygni/texasholdem/player/utils/PokerHandUtils.java:102-110 | The result is the whole suit bucket of a suit with at least five cards; none is found exactly when every suit has fewer than five. |
| PokerHands.OnlyOneSuitOfFive | src/main/java/se/cygni/texasholdem/player/utils/PokerHandUtils.java:102-110 | Among at most nine different cards only one suit can hold five, so the order the suits are searched in does not matter. |
| PokerHands.IsRoyalFlush | src/main/java/se/cygni/texasholdem/player/utils/PokerHandUtils.java:113-127 | A royal flush is found exactly when the five highest cards of the suit are ACE, KING, QUEEN, JACK, TEN, and it is those five cards. |
| PokerHands.RoyalFlushFromRanks | src/main/java/se/cygni/texasholdem/player/utils/PokerHandUtils.java:113-127 | A suit holding every rank from TEN to ACE always gives a royal flush. |
| PokerHands.RoyalFlushIff | src/main/java/se/cygni/texasholdem/player/utils/PokerHandUtils.java:113-127 | Over the different cards of one suit, a royal flush is found exactly when the suit holds every rank from TEN to ACE. |
| PokerHands.IsFlush | src/main/java/se/cygni/texasholdem/player/utils/PokerHandUtils.java:193-200 | The flush is five different cards of the suit, highest rank first, and no suited card left out outranks one taken. |
| PokerHands.StraightOf | src/main/java/se/cygni/texasholdem/player/utils/PokerHandUtils.java:129-146 | A straight is found exactly when some run of the ace-extended order is longer than four. Its cards are five different input cards, each one rank step below the card before, and they are the top five cards of the run the tie-break rule chooses, highest first. |
| PokerHands.ChosenRunTop | src/main/java/se/cygni/texasholdem/player/utils/PokerHandUtils.java:137-143 | The top five cards of the longest run, turned round, are the top five of a range the tie-break rule accepts. |
| PokerHands.StraightIsHighest | src/main/java/se/cygni/texasholdem/player/utils/PokerHandUtils.java:202-219 | For at most seven cards, the straight found is the highest one: no five-card run of the ace-extended order ends on a higher rank than the straight's top card. |
| PokerHands.IsStraightFlush | src/main/java/se/cygni/texasholdem/player/utils/PokerHandUtils.java:129-146 | A straight flush is found exactly when the suit holds a run of at least five cards. Its cards are five different suited cards, each one rank step below the one before, and they are the top five of the chosen run. |
| PokerHands.IsStraight | src/main/java/se/cygni/texasholdem/player/utils/PokerHandUtils.java:202-219 | A straight is found exactly when the cards hold a run of at least five. Its cards are five different input cards, each one rank step below the one before, and they are the top five of the chosen run. |
| PokerHands.TopOfRun | src/main/java/se/cygni/texasholdem/player/utils/PokerHandUtils.java:137-143 | The top five cards of a run, turned round, are five different run cards, each one rank step below the one before. |
| PokerHands.IsFourOfAKind | src/main/java/se/cygni/texasholdem/player/utils/PokerHandUtils.java:148-170 | Four of a kind is found exactly when some rank has four cards; the hand opens with the four cards of the lowest such rank. |
| PokerHands.FourOfAKindWellFormed | src/main/java/se/cygni/texasholdem/player/utils/PokerHandUtils.java:148-170 | Over five or more different cards, four of a kind is five different input cards. |
| PokerHands.WithoutBucketSize | src/main/java/se/cygni/texasholdem/player/utils/CardUtils.java:124-138 | Leaving out every card of one rank leaves exactly the cards of the other ranks. |
| PokerHands.GroupKickers | src/main/java/se/cygni/texasholdem/player/utils/CardUtils.java:124-138 | The kickers picked after a whole rank bucket are the requested number of cards of other ranks, highest first, and no other-rank card left out outranks one of them. |
| PokerHands.KickersAfterGroup | src/main/java/se/cygni/texasholdem/player/utils/PokerHandUtils.java:165-168 | Appending such kickers to a group keeps the group first and makes its last card the lowest kicker, above every other-rank card left out. |
| PokerHands.FourOfAKindKicker | src/main/java/se/cygni/texasholdem/player/utils/PokerHandUtils.java:148-170 | The fifth card of four of a kind has another rank and is the highest card of any other rank. |
| PokerHands.IsFullHouse | src/main/java/se/cygni/texasholdem/player/utils/PokerHandUtils.java:172-191 | A full house is three cards of one rank with at least three, then two of a different rank with at least two, all input cards. No higher rank has three cards, and no higher rank other than the three's has two. |
| PokerHands.FullHouseIff | src/main/java/se/cygni/texasholdem/player/utils/PokerHandUtils.java:172-191 | A full house is found exactly when one rank has three or more cards and a different rank has two or more. |
| PokerHands.FullHouseWellFormed | src/main/java/se/cygni/texasholdem/player/utils/PokerHandUtils.java:172-191 | Over different cards, a full house is five different input cards. |
| PokerHands.IsThreeOfAKind | src/main/java/se/cygni/texasholdem/player/utils/PokerHandUtils.java:221-253 | Three of a kind is found exactly when some rank has exactly three cards; the hand opens with the three cards of the highest such rank. |
| PokerHands.ThreeOfAKindWellFormed | src/main/java/se/cygni/texasholdem/player/utils/PokerHandUtils.java:221-253 | Over five or more different cards, three of a kind is five different input cards. |
| PokerHands.ThreeOfAKindKickers | src/main/java/se/cygni/texasholdem/player/utils/PokerHandUtils.java:221-253 | The last two cards of three of a kind have other ranks, highest first, and no other-rank card left out outranks them. |
| PokerHands.IsTwoPairs | src/main/java/se/cygni/texasholdem/player/utils/PokerHandUtils.java:255-278 | Two pairs open with a pair, then a pair of a lower rank, each rank holding at least two cards. No rank above the first pair has two cards, and no rank above the second pair other than the first has two. |
| PokerHands.TwoPairsIff | src/main/java/se/cygni/texasholdem/player/utils/PokerHandUtils.java:255-278 | Two pairs are found exactly when two different ranks each have at least two cards. |
| PokerHands.TwoPairsWellFormed | src/main/java/se/cygni/texasholdem/player/utils/PokerHandUtils.java:255-278 | Over five or more different cards, two pairs are five different input cards. |
| PokerHands.TwoPairsKicker | src/main/java/se/cygni/texasholdem/player/utils/PokerHandUtils.java:255-278 | Over five or more different cards, the fifth card of two pairs ranks at least as high as every card outside the two pairs. |
| PokerHands.HighestGroups | src/main/java/se/cygni/texasholdem/player/utils/PokerHandUtils.java:172-191 | Two groups each taken from the highest rank that qualifies leave no higher qualifying rank for either of them. |
| PokerHands.OnePairScan | src/main/java/se/cygni/texasholdem/player/utils/PokerHandUtils.java:280-311 | The ascending scan succeeds exactly when one rank has exactly two cards and every other rank from the start has at most one. |
| PokerHands.IsOnePair | src/main/java/se/cygni/texasholdem/player/utils/PokerHandUtils.java:280-311 | One pair is found exactly when one rank has exactly two cards and no other rank has two or more; the hand opens with that pair. |
| PokerHands.OnePairWellFormed | src/main/java/se/cygni/texasholdem/player/utils/PokerHandUtils.java:280-311 | Over five or more different cards, one pair is five different input cards. |
| PokerHands.OnePairKickers | src/main/java/se/cygni/texasholdem/player/utils/PokerHandUtils.java:280-311 | The last three cards of one pair have other ranks and come highest rank first, and no other-rank card left out outranks them. |
| PokerHands.PairThenKickers | src/main/java/se/cygni/texasholdem/player/utils/PokerHandUtils.java:300-308 | A rank with two cards, sorted by suit, then the three highest cards of other ranks, is five cards whose last three have other ranks, come highest rank first and outrank every other-rank card left out. |
| PokerHands.PairAndThreeKickers | src/main/java/se/cygni/texasholdem/player/utils/PokerHandUtils.java:306-308 | A pair followed by three descending kickers of other ranks keeps the kickers highest rank first and every left-out other-rank card at or below the last kicker. |
| PokerHands.IsHighHand | src/main/java/se/cygni/texasholdem/player/utils/PokerHandUtils.java:313-316 | The high hand is the five highest cards (all when fewer), highest rank first, and no card left out outranks one taken. |
| PokerHands.BestHandOf | src/main/java/se/cygni/texasholdem/player/utils/PokerHandUtils.java:44-100 | Evaluation fails only on an empty card list; flush categories only come from a suit of five, and a high hand means no suit of five, no run of five, and no rank with three or four cards. |
| PokerHands.BestHand | src/main/java/se/cygni/texasholdem/player/utils/PokerHandUtils.java:23-29 | With null lists counted as empty, evaluation succeeds exactly when the merged list is non-empty. |
| PokerHands.BestHandWellFormed | src/main/java/se/cygni/texasholdem/player/utils/PokerHandUtils.java:44-100 | For five to seven different cards the best hand always exists and is five different input cards. |
| PokerHands.HighHandMeansNoPair | src/main/java/se/cygni/texasholdem/player/utils/PokerHandUtils.java:44-100 | Over different cards, a high hand means no rank has two cards. |
| PokerHands.HighHandChecksFail | src/main/java/se/cygni/texasholdem/player/utils/PokerHandUtils.java:44-100 | A high hand is reached only when four of a kind, three of a kind, two pairs and one pair all fail. |
| PokerHands.PairFindsAGroup | src/main/java/se/cygni/texasholdem/player/utils/PokerHandUtils.java:148-311 | Over different cards, two or more cards of one rank always make four of a kind, three of a kind, two pairs or one pair succeed. |
| PokerHands.BestHandCategory | src/main/java/se/cygni/texasholdem/player/utils/PokerHandUtils.java:44-100 | Over different cards, the category of the best hand is the first that holds in the order royal flush, straight flush, flush, four of a kind, full house, straight, three of a kind, two pairs, one pair, high hand, with each condition stated on its own from the rank counts, the suits and the runs. |
| PokerHands.SuitedChecks | src/main/java/se/cygni/texasholdem/player/utils/PokerHandUtils.java:113-146 | Over different cards, the royal-flush check succeeds exactly when the suit of five holds every rank from TEN to ACE, and the straight-flush check exactly when that suit holds a run of five. |
| PokerHands.TwoGroupChecks | src/main/java/se/cygni/texasholdem/player/utils/PokerHandUtils.java:172-191 | The full-house check succeeds exactly when one rank has three or more cards and a different rank two or more; the two-pairs check exactly when two different ranks have two or more. |
| PokerHands.SuitBucket | src/main/java/se/cygni/texasholdem/player/utils/PokerHandUtils.java:102-110 | The bucket returned is the whole list of cards of the suit asked for. |
| PokerHands.LowestWithExactly | src/main/java/se/cygni/texasholdem/player/utils/PokerHandUtils.java:148-170 | The rank found is the lowest one from the start with exactly n cards; none is found only when no such rank exists. |
| PokerHands.HighestWithExactly | src/main/java/se/cygni/texasholdem/player/utils/PokerHandUtils.java:221-253 | The rank found is the highest one up to the limit with exactly n cards; none is found only when no such rank exists. |
| PokerHands.OrderValue | src/main/java/se/cygni/texasholdem/player/postflop/Hand.java:27 | Category order values lie in 1..10. |
| PokerHands.CardsRequired | src/main/java/se/cygni/texasholdem/player/postflop/Hand.java:51 | The number of cards each category needs lies in 1..5. |
| HandOrder.LexCompare | src/main/java/se/cygni/texasholdem/player/postflop/Hand.java:28-37 | The rank loop gives 0 exactly when all compared ranks agree, fails exactly when the first list is longer and agrees on the whole second one, and otherwise gives the first non-zero rank difference. |
| HandOrder.Compare | src/main/java/se/cygni/texasholdem/player/postflop/Hand.java:20-40 | Different categories give the difference of their order values, whatever the cards; equal categories give the rank loop's result. |
| HandOrder.CompareSelf | src/main/java/se/cygni/texasholdem/player/postflop/Hand.java:22-24 | Comparing a hand with itself gives 0. |
| HandOrder.CompareAntisymmetric | src/main/java/se/cygni/texasholdem/player/postflop/Hand.java:27-37 | For card lists of one length, swapping the hands negates the result. |
| HandOrder.CompareTransitive | src/main/java/se/cygni/texasholdem/player/postflop/Hand.java:27-37 | For card lists of one length, "at most" is transitive. |
| HandOrder.CompareTotal | src/main/java/se/cygni/texasholdem/player/postflop/Hand.java:27-37 | For card lists of one length, any two hands are ordered one way or the other. |
| HandOrder.PocketCardsInHand | src/main/java/se/cygni/texasholdem/player/postflop/Hand.java:48-54 | The count fails only on a hand shorter than its category needs; otherwise it is at most the number of different pocket cards and at most the cards the category needs. The exact count is stated by `HandOrder.PocketCardsCount`. |
| HandOrder.PocketCardsExtremes | src/main/java/se/cygni/texasholdem/player/postflop/Hand.java:48-54 | The count is all the pocket cards when all are among the leading cards, and 0 when none is. |
| HandOrder.PocketCardsCount | src/main/java/se/cygni/texasholdem/player/postflop/Hand.java:48-54 | On a long enough hand over different pocket cards, the count is exactly the number of pocket cards among the cards the category needs. |
| HandOrder.OnePocketCardLeads | src/main/java/se/cygni/texasholdem/player/postflop/Hand.java:48-54 | With one pocket card among the leading cards and the other not, the count is 1. |
| HandOrder.CommonIsPresentCount | src/main/java/se/cygni/texasholdem/player/postflop/Hand.java:48-54 | The pocket cards counted are exactly the cards shared between the pocket and the leading cards. |
| HandRankingService.Fresh | src/main/java/se/cygni/texasholdem/player/postflop/HandRankingServiceImpl.java:18-35 | A new or reset service has all 52 cards in the pool and an empty cache. |
| HandRankingService.PoolOrder | src/main/java/se/cygni/texasholdem/player/postflop/HandRankingServiceImpl.java:60-62 | The array of the pool holds each pool card exactly once. |
| HandRankingService.PairsCover | src/main/java/se/cygni/texasholdem/player/postflop/HandRankingServiceImpl.java:62-70 | The double loop enumerates the pair of every two positions i < j. |
| HandRankingService.PairsCount | src/main/java/se/cygni/texasholdem/player/postflop/HandRankingServiceImpl.java:62-70 | There are m(m-1)/2 pairs of m cards. |
| HandRankingService.PairsDistinct | src/main/java/se/cygni/texasholdem/player/postflop/HandRankingServiceImpl.java:62-70 | Over different cards, every enumerated pair is two different cards. |
| HandRankingService.StableSortSorted | src/main/java/se/cygni/texasholdem/player/postflop/HandRankingServiceImpl.java:75 | The stable sort orders the hands by the hand comparison. |
| HandRankingService.StableSort | src/main/java/se/cygni/texasholdem/player/postflop/HandRankingServiceImpl.java:75 | The sort keeps the number of hands, each a five-card hand of the input. |
| HandRankingService.InsertStable | src/main/java/se/cygni/texasholdem/player/postflop/HandRankingServiceImpl.java:75 | Inserting one hand gives one hand more, all from the input or the inserted hand. |
| HandRankingService.CountAtMostSort | src/main/java/se/cygni/texasholdem/player/postflop/HandRankingServiceImpl.java:75 | Sorting keeps how many hands are at most a given hand. |
| HandRankingService.InsertMineIndex | src/main/java/se/cygni/texasholdem/player/postflop/HandRankingServiceImpl.java:72-76 | The real hand, inserted last by the stable sort, lands right after every hand at most equal to it. |
| HandRankingService.SortedIndexIsCount | src/main/java/se/cygni/texasholdem/player/postflop/HandRankingServiceImpl.java:72-76 | The index indexOf finds after sorting is the number of opponent hands at most the real hand. |
| HandRankingService.IndexOfMine | src/main/java/se/cygni/texasholdem/player/postflop/HandRankingServiceImpl.java:76 | The index is the first position of the real hand, or -1 exactly when it is absent. |
| HandRankingService.Percentile | src/main/java/se/cygni/texasholdem/player/postflop/HandRankingServiceImpl.java:78 | The percentile is the index over the population times 100, rounded down, so it lies in 0..99. |
| HandRankingService.Opponents | src/main/java/se/cygni/texasholdem/player/postflop/HandRankingServiceImpl.java:60-70 | There are m(m-1)/2 opponent hands for m pool cards, each of five cards. |
| HandRankingService.OpponentsCount | src/main/java/se/cygni/texasholdem/player/postflop/HandRankingServiceImpl.java:62-70 | Twice the number of opponent hands is m(m-1) for m pool cards. |
| HandRankingService.RankAgainst | src/main/java/se/cygni/texasholdem/player/postflop/HandRankingServiceImpl.java:60-80 | The ranking holds the real best hand, a percentile in 0..99 equal to the percentile of the count of opponent hands at most it, and exactly the number of pocket cards among the hand's leading cards that the hand counts, at most two. |
| HandRankingService.GetRanking | src/main/java/se/cygni/texasholdem/player/postflop/HandRankingServiceImpl.java:44-84 | Null lists and wrong sizes fail; a cached card count returns the cached ranking with the state unchanged; otherwise the pool loses the known cards, the new ranking holds the real best hand and its pocket-card count, and it is cached under the card count. |
| HandRankingService.Recompute | src/main/java/se/cygni/texasholdem/player/postflop/HandRankingServiceImpl.java:56-81 | On a cache miss the pool loses the known cards, the ranking is cached under the card count, and it holds the real best hand, a value in 0..99 and the hand's pocket-card count. |
| HandRankingService.RankingService.ResetDeck | src/main/java/se/cygni/texasholdem/player/postflop/HandRankingServiceImpl.java:32-35 | A reset puts every card back in the pool and empties the cache. |
| HandRankingService.RankingService.CardsInRankingDeck | src/main/java/se/cygni/texasholdem/player/postflop/HandRankingServiceImpl.java:38-41 | The count is the number of cards in the pool. |
| HandRankingService.RankingService.Ranking | src/main/java/se/cygni/texasholdem/player/postflop/HandRankingServiceImpl.java:44-84 | The object call succeeds exactly when the function does, returns its ranking and takes its new state; a failure leaves the state unchanged. |
| HandRankingService.RankingIsOpponentCount | src/main/java/se/cygni/texasholdem/player/postflop/HandRankingServiceImpl.java:56-78 | On a cache miss the ranking is the percentile of the number of opponent pairs whose best hand is at most the real one, among m(m-1)/2 + 1 hands. |
| HandRankingService.FirstFlopLeaves47 | src/main/java/se/cygni/texasholdem/player/postflop/HandRankingServiceImpl.java:39-57 | A first flop call on a fresh service leaves 47 cards in the pool. |
| HandRankingService.SecondCallIsCached | src/main/java/se/cygni/texasholdem/player/postflop/HandRankingServiceImpl.java:51-54 | A second call with the same card count returns the first ranking and changes nothing. |
| HandRankingService.ResetForgetsCache | src/main/java/se/cygni/texasholdem/player/postflop/HandRankingServiceImpl.java:32-35 | After a reset the next call computes afresh and caches only its own card count. |
| PocketRules.RankRange | src/main/java/se/cygni/texasholdem/player/preflop/StartingHandType.java:12-50 | A rank is in the range exactly when it lies between the bounds, both included. |
| PocketRules.PredicatesSymmetric | src/main/java/se/cygni/texasholdem/player/CardUtils.java:12-31 | Every pocket-card predicate is unchanged when the two cards are swapped. |
| PocketRules.SuitedIsCombination | src/main/java/se/cygni/texasholdem/player/CardUtils.java:16-27 | Each suited predicate holds exactly when the cards share a suit and the unsuited one holds, so suited implies unsuited. |
| PocketRules.PairIsCombination | src/main/java/se/cygni/texasholdem/player/CardUtils.java:29-31 | A pair of the set is a combination of the set with equal ranks. |
| PocketRules.WiderSetKeeps | src/main/java/se/cygni/texasholdem/player/CardUtils.java:12-31 | Widening the rank set keeps every predicate true. |
| StartingHands.FirstInGroup | src/main/java/se/cygni/texasholdem/player/preflop/StartingHandType.java:84-88 | The loop returns the first tier that holds, and none only when no tier holds. |
| StartingHands.GroupOf | src/main/java/se/cygni/texasholdem/player/preflop/StartingHandType.java:52-90 | Some tier always holds, because the last holds exactly when no other does, so the exception after the loop is unreachable. |
| StartingHands.GetGroup | src/main/java/se/cygni/texasholdem/player/preflop/StartingHandType.java:80-91 | A null card fails; otherwise the result is a tier that holds the hand, and no earlier tier holds it. |
| StartingHands.GroupIsFirstTier | src/main/java/se/cygni/texasholdem/player/preflop/StartingHandType.java:12-91 | Each of the first three tiers is chosen exactly when its table names the hand and no earlier table does; the last tier exactly when none does. |
| StartingHands.GroupSymmetric | src/main/java/se/cygni/texasholdem/player/preflop/StartingHandType.java:12-50 | The order of the two cards does not change the tier. |
| StartingHands.PocketPairGroups | src/main/java/se/cygni/texasholdem/player/preflop/StartingHandType.java:13-34 | Pairs of seven and up always play, fives and sixes play from middle or late, deuces and threes only late, and fours fall through to no play. |
| StartingHands.NoTableNoPlay | src/main/java/se/cygni/texasholdem/player/preflop/StartingHandType.java:12-63 | A deuce or three beside a different rank below jack is named by no table and so never played. |
| StartingHands.AlwaysPlayExamples | src/test/java/se/cygni/texasholdem/player/StartingHandGroupTest.java:35-44 | AA, KK, AK, QQ, JJ, TT, 99, 88 and AQ are of the first tier. |
| StartingHands.MiddleLatePlayExamples | src/test/java/se/cygni/texasholdem/player/StartingHandGroupTest.java:50-51 | 9h Ah is of the second tier, and Qc Jc is not. |
| StartingHands.OnlyLatePlayExamples | src/test/java/se/cygni/texasholdem/player/StartingHandGroupTest.java:57-59 | Ac 8h, 9h 8d and Qc 9d are of the third tier. |
| StartingHands.NoPlayExamples | src/test/java/se/cygni/texasholdem/player/StartingHandGroupTest.java:65-68 | 2h Th, 2h 3h, 5h 3h and 8d 3h are of the last tier. |
| StealTypes.FirstType | src/main/java/se/cygni/texasholdem/player/preflop/StealType.java:57-61 | The loop returns the first type that holds, and none only when no type holds. |
| StealTypes.GetType | src/main/java/se/cygni/texasholdem/player/preflop/StealType.java:28-64 | The lookup never fails, and gives the steal type exactly when the steal table names the hand. |
| StealTypes.PairsAndAcesSteal | src/main/java/se/cygni/texasholdem/player/preflop/StealType.java:11-12 | Every pocket pair and every hand holding an ace is worth a steal. |
| StealTypes.StealSymmetric | src/main/java/se/cygni/texasholdem/player/preflop/StealType.java:11-26 | The order of the two cards does not change the steal type. |
| StealTypes.PlayableHandsSteal | src/main/java/se/cygni/texasholdem/player/preflop/StealType.java:11-26 | Every hand of the first two starting-hand tiers is worth a steal. |
| StealTypes.StealExamples | src/test/java/se/cygni/texasholdem/player/preflop/StealTypeTest.java:21-35 | 6h Qd and 2s Qd are not worth a steal; Qh Qd and 2s Ah are. |
| ActionUtils.ActionMapOf | src/main/java/se/cygni/texasholdem/player/preflop/PreFlopStrategyImpl.java:53-56 | The map has a key exactly for each offered action type, and maps it to an offered action of that type; `ActionUtils.ActionMapLastWins` states which one. |
| ActionUtils.ActionMapLastWins | src/main/java/se/cygni/texasholdem/player/preflop/PreFlopStrategyImpl.java:53-56 | The action kept for a type is the last offered action of that type. |
| ActionUtils.ChooseInOrderFrom | src/main/java/se/cygni/texasholdem/player/ActionUtils.java:20-28 | The result is the offered action of the first preferred type that is offered, and nothing exactly when no preferred type is offered. |
| ActionUtils.ChooseAppend | src/main/java/se/cygni/texasholdem/player/ActionUtils.java:20-28 | Choosing from preferences p then q gives the choice from p when there is one, and the choice from q otherwise. |
| ActionUtils.SafelyChooseInOrderFrom | src/main/java/se/cygni/texasholdem/player/ActionUtils.java:30-52 | With someone all-in it checks or folds; otherwise, when exactly all-in and fold are offered, it goes all-in; otherwise it chooses by the caller's preferences. |
| ActionUtils.ChosenIsOffered | src/main/java/se/cygni/texasholdem/player/ActionUtils.java:20-28 | A chosen action is one of the offered actions, of a preferred type, and no earlier preferred type was offered. |
| Positions.IndexOfName | src/main/java/se/cygni/texasholdem/player/preflop/PositionDeterminator.java:28-31 | The index is the first seat with the name, or -1 exactly when nobody has it. |
| Positions.TableShape | src/main/java/se/cygni/texasholdem/player/preflop/PositionDeterminator.java:16-23 | For 4 to 11 players the row has one entry per player, starts with three early seats, ends late, and never moves back from late to middle or from middle to early. |
| Positions.GetPosition | src/main/java/se/cygni/texasholdem/player/preflop/PositionDeterminator.java:26-34 | The lookup succeeds exactly for 4 to 11 players with the name among the first seats of the row, and then gives that row's entry; otherwise it is out of bounds. |
| Positions.FirstSeatsEarlyLastLate | src/main/java/se/cygni/texasholdem/player/preflop/PositionDeterminator.java:16-33 | The first three seats after the small blind are early and the last one is late. |
| Positions.SeventhOfSevenIsLate | src/test/java/se/cygni/texasholdem/player/preflop/PositionDeterminatorTest.java:24-38 | Seven players with the bot seated last give a late position. |
| PlayState.SmallBlindIndex | src/main/java/se/cygni/texasholdem/player/utils/PlayState.java:53-58 | The index is that of the first player named like the small blind, or the number of players when nobody is. |
| PlayState.PlayersInPositionOrder | src/main/java/se/cygni/texasholdem/player/utils/PlayState.java:47-67 | The result is the players from the small blind to the end, followed by those before it. |
| PlayState.PositionOrderIsRotation | src/main/java/se/cygni/texasholdem/player/utils/PlayState.java:47-67 | The order is a permutation of the players, and the small blind, when present, comes first. |
| PlayState.PositionOrderIdentity | src/main/java/se/cygni/texasholdem/player/utils/PlayState.java:53-66 | The order is unchanged when the small blind already sits first or nobody has its name. |
| PlayState.PositionOrderExample | src/main/java/se/cygni/texasholdem/player/utils/PlayState.java:41-46 | CO, D, SB, BB, UTG, HJ becomes SB, BB, UTG, HJ, CO, D. |
| PreFlopStrategy.NewStrategy | src/main/java/se/cygni/texasholdem/player/preflop/PreFlopStrategyImpl.java:33-36 | A new strategy holds no cards, no tier and no raises. |
| PreFlopStrategy.PutPocketCard | src/main/java/se/cygni/texasholdem/player/preflop/PreFlopStrategyImpl.java:39-46 | A null card fails; otherwise, into an empty hand, the card fills the first slot and leaves the second unchanged; once the first slot is filled it never changes, and each later card overwrites the second slot. |
| PreFlopStrategy.DealingPocketCards | src/main/java/se/cygni/texasholdem/player/preflop/PreFlopStrategyImpl.java:39-46 | Two cards land in order, and a third replaces the second. |
| PreFlopStrategy.TypeOf | src/main/java/se/cygni/texasholdem/player/preflop/PreFlopStrategyImpl.java:121-126 | A cached tier is returned unchanged; otherwise a missing card fails, and the result is the first tier that holds the pocket cards (the one `StartingHands.GetGroup` returns), which is then cached. |
| PreFlopStrategy.TypeComputedOnce | src/main/java/se/cygni/texasholdem/player/preflop/PreFlopStrategyImpl.java:121-126 | Once computed, the tier is returned again unchanged, even after further cards are put. |
| PreFlopStrategy.PositionOf | src/main/java/se/cygni/texasholdem/player/preflop/PreFlopStrategyImpl.java:99-119 | The position is late exactly for a dealer who is not the small blind, and early exactly for a non-dealer blind. |
| PreFlopStrategy.Decide | src/main/java/se/cygni/texasholdem/player/preflop/PreFlopStrategyImpl.java:63-90 | The chosen action is an offered one, and an action is always chosen when check or fold is offered. |
| PreFlopStrategy.DecideRules | src/main/java/se/cygni/texasholdem/player/preflop/PreFlopStrategyImpl.java:63-90 | With someone all-in or a tier that does not play from the position, the choice is check, else fold. Otherwise, when exactly all-in and fold are offered, it goes all-in. Otherwise the first tier, and the second before the third raise, prefer raise, call, check, fold, and the rest call, check, fold. |
| PreFlopStrategy.DecidePrefers | src/main/java/se/cygni/texasholdem/player/preflop/PreFlopStrategyImpl.java:68-90 | When the tier plays and no one is all-in, the tier rule with its check-or-fold fall-back is the choice in the order raise, call, check, fold, or call, check, fold. |
| PreFlopStrategy.GetPreFlopAction | src/main/java/se/cygni/texasholdem/player/preflop/PreFlopStrategyImpl.java:49-97 | The action is one of the offered ones and the raise count goes up by one exactly when it is a raise; it fails on a missing card, or when neither check nor fold is left for the last rule. |
| PreFlopStrategy.PreFlopActionFollowsRules | src/main/java/se/cygni/texasholdem/player/preflop/PreFlopStrategyImpl.java:49-97 | The action succeeds exactly when the rules choose an action for the tier, the position and the offered actions, and it is that action. |
| PreFlopStrategy.RaiseOnlyWhenAllowed | src/main/java/se/cygni/texasholdem/player/preflop/PreFlopStrategyImpl.java:68-80 | Only the first tier, or the second from middle or late position before the third raise, ever raises. |
| PreFlopStrategy.NoPlayChecksOrFolds | src/main/java/se/cygni/texasholdem/player/preflop/PreFlopStrategyImpl.java:63-90 | A hand of the last tier checks when it can and folds otherwise. |

## Left out

- The bot's session, event callbacks and logging (`PerforatorBot`, `LocalPlayerClient`) are network and I/O code around the engine.
- The post-flop strategy and the game statistics work on floating-point chip ratios and change action amounts in place.
- `StealBlindsEvaluator` draws a threshold from a clock-seeded random generator.
- Only `getPlayersInPositionOrder` of `PlayState` is modelled. Its getters delegate to a play state that is not part of this model. The small blind's name is a parameter of `PlayState.PlayersInPositionOrder`.
- Whether any player has gone all-in is a boolean parameter of `ActionUtils.SafelyChooseInOrderFrom` and `PreFlopStrategy.GetPreFlopAction`. The same holds for whether the bot is dealer, small blind or big blind.
- The deck shuffle is left out. The pool is a set, so its order only matters when it is turned into an array; `HandRankingService.PoolOrder` uses deck order for that array.
- HandRankingService.Percentile: computes the exact floor `(100 * i) / n` on integers (its contract pins it down as `p * n <= 100 * i < (p + 1) * n`) instead of `(int) ((double) i / n * 100)`. In double arithmetic the quotient is rounded before the product, so the code can come out one lower: for `i = 29` and `n = 100`, `29.0 / 100 * 100` is 28.999999999999996, which the cast makes 28, while the model gives 29.
- The three-argument, sampled `getRanking` that the ranking test calls is not part of this model. No code for it exists beside the two-argument method.
- Rank buckets in `PokerHandUtils` are mutable lists that a later check can see changed. The evaluator is modelled as a pure function of the cards, and each check reads a fresh bucket.
- HandOrder.Compare: the identity test `this == other` is not modelled as object identity. It returns 0, which comparing a hand with an equal hand also returns (`HandOrder.CompareSelf`). In the ranking, identity only matters to `indexOf`, which the ranking models by marking the real hand.
- Hands built from cards with duplicates are outside most evaluator lemmas (`PokerHands.BestHandWellFormed` and the `...WellFormed` lemmas require different cards). The evaluator functions accept any list, but `HandRankingService.GetRanking` and the functions under it require different cards (see below).
- HandRankingService.GetRanking: when the arguments are valid, requires the pocket and community cards to be different cards. The code does not check this; its one caller passes dealt cards, which always differ. With repeated cards the evaluator's five-card lemmas do not hold, so that case is not modelled.
- HandRankingService.RankingService.Ranking: has the same different-cards precondition as `HandRankingService.GetRanking`, for the same reason.
- PokerHands.StraightIsHighest: is stated for at most seven cards, the most the bot ever evaluates (two pocket and five community cards). With ten cards of the ranks 2..6 and 8..Q, the earlier run ties in length with the trailing one and wins the tie-break, so the six-high straight would come out.
- CardListUtils.LongestConsecutiveSubset: takes non-empty input as a precondition. The code reads the highest card first and throws on an empty list; `PokerHands.BestHandOf` models that failure.
