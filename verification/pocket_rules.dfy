/** The pocket-card predicates of the pre-flop tables: which two-card combinations a rule names. */
module PocketRules {
  import opened Cards

  /** `EnumSet.range(lo, hi)`: the ranks from `lo` to `hi`, both included. */
  function RankRange(lo: Rank, hi: Rank): (s: set<Rank>)
    ensures forall r: Rank :: r in s <==> lo <= r <= hi
  {
    set r: Rank | r in AllRanks && lo <= r <= hi
  }

  /** The thirteen ranks. */
  const AllRanks: set<Rank> := {DEUCE, THREE, FOUR, FIVE, SIX, SEVEN, EIGHT, NINE, TEN, JACK, QUEEN, KING, ACE}

  /** Both ranks are in `setOf`. */
  predicate IsCombinationOf(c1: Card, c2: Card, setOf: set<Rank>) {
    c1.rank in setOf && c2.rank in setOf
  }

  predicate IsSuitedCombinationOf(c1: Card, c2: Card, setOf: set<Rank>) {
    c1.suit == c2.suit && IsCombinationOf(c1, c2, setOf)
  }

  /** One card has rank `rank` and the other a rank in `setOf`. */
  predicate IsCombinationWith(c1: Card, c2: Card, rank: Rank, setOf: set<Rank>) {
    (c1.rank == rank && c2.rank in setOf) || (c2.rank == rank && c1.rank in setOf)
  }

  predicate IsSuitedCombinationWith(c1: Card, c2: Card, rank: Rank, setOf: set<Rank>) {
    c1.suit == c2.suit && IsCombinationWith(c1, c2, rank, setOf)
  }

  /** A pair whose rank is in `setOf`. */
  predicate IsPairOf(c1: Card, c2: Card, setOf: set<Rank>) {
    c1.rank == c2.rank && c1.rank in setOf && c2.rank in setOf
  }

  /** Every predicate is the same with the cards swapped. */
  lemma PredicatesSymmetric(c1: Card, c2: Card, rank: Rank, setOf: set<Rank>)
    ensures IsCombinationOf(c1, c2, setOf) == IsCombinationOf(c2, c1, setOf)
    ensures IsSuitedCombinationOf(c1, c2, setOf) == IsSuitedCombinationOf(c2, c1, setOf)
    ensures IsCombinationWith(c1, c2, rank, setOf) == IsCombinationWith(c2, c1, rank, setOf)
    ensures IsSuitedCombinationWith(c1, c2, rank, setOf) == IsSuitedCombinationWith(c2, c1, rank, setOf)
    ensures IsPairOf(c1, c2, setOf) == IsPairOf(c2, c1, setOf)
  {
  }

  /** A suited combination is a combination of cards of one suit. */
  lemma SuitedIsCombination(c1: Card, c2: Card, rank: Rank, setOf: set<Rank>)
    ensures IsSuitedCombinationOf(c1, c2, setOf) <==> c1.suit == c2.suit && IsCombinationOf(c1, c2, setOf)
    ensures IsSuitedCombinationOf(c1, c2, setOf) ==> IsCombinationOf(c1, c2, setOf)
    ensures IsSuitedCombinationWith(c1, c2, rank, setOf) <==> c1.suit == c2.suit && IsCombinationWith(c1, c2, rank, setOf)
    ensures IsSuitedCombinationWith(c1, c2, rank, setOf) ==> IsCombinationWith(c1, c2, rank, setOf)
  {
  }

  /** A pair of the set is a combination of the set whose ranks agree, and a combination with a rank of
      the set itself. */
  lemma PairIsCombination(c1: Card, c2: Card, setOf: set<Rank>)
    ensures IsPairOf(c1, c2, setOf) <==> c1.rank == c2.rank && IsCombinationOf(c1, c2, setOf)
    ensures IsPairOf(c1, c2, setOf) ==> IsCombinationWith(c1, c2, c1.rank, setOf)
  {
  }

  /** Widening the set keeps every predicate true. */
  lemma WiderSetKeeps(c1: Card, c2: Card, rank: Rank, small: set<Rank>, large: set<Rank>)
    requires small <= large
    ensures IsCombinationOf(c1, c2, small) ==> IsCombinationOf(c1, c2, large)
    ensures IsCombinationWith(c1, c2, rank, small) ==> IsCombinationWith(c1, c2, rank, large)
    ensures IsSuitedCombinationWith(c1, c2, rank, small) ==> IsSuitedCombinationWith(c1, c2, rank, large)
    ensures IsPairOf(c1, c2, small) ==> IsPairOf(c1, c2, large)
  {
  }
}
