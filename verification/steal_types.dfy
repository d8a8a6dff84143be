/** The blind-stealing table: the hands worth a steal attempt, and the rest. */
module StealTypes {
  import opened Wrappers
  import opened Cards
  import opened PocketRules
  import StartingHands

  datatype StealType = Steal | DontSteal

  const AllStealTypes: seq<StealType> := [Steal, DontSteal]

  predicate StealHand(c1: Card, c2: Card) {
    IsPairOf(c1, c2, RankRange(DEUCE, ACE)) ||
    IsCombinationWith(c1, c2, ACE, RankRange(DEUCE, KING)) ||
    IsSuitedCombinationWith(c1, c2, KING, RankRange(SEVEN, QUEEN)) ||
    IsSuitedCombinationWith(c1, c2, QUEEN, RankRange(EIGHT, JACK)) ||
    IsSuitedCombinationWith(c1, c2, JACK, RankRange(SEVEN, TEN)) ||
    IsSuitedCombinationWith(c1, c2, TEN, RankRange(SEVEN, NINE)) ||
    IsSuitedCombinationWith(c1, c2, NINE, RankRange(SIX, EIGHT)) ||
    IsSuitedCombinationWith(c1, c2, EIGHT, RankRange(FIVE, SEVEN)) ||
    IsSuitedCombinationWith(c1, c2, SEVEN, RankRange(FIVE, SIX)) ||
    IsSuitedCombinationWith(c1, c2, SIX, RankRange(FOUR, FIVE)) ||
    IsSuitedCombinationWith(c1, c2, FIVE, {FOUR}) ||
    IsCombinationWith(c1, c2, KING, RankRange(NINE, QUEEN)) ||
    IsCombinationWith(c1, c2, QUEEN, RankRange(NINE, JACK)) ||
    IsCombinationWith(c1, c2, JACK, RankRange(EIGHT, TEN)) ||
    IsCombinationWith(c1, c2, TEN, RankRange(EIGHT, NINE)) ||
    IsCombinationWith(c1, c2, NINE, {EIGHT})
  }

  /** `isInStealType` for a hand the table judges as `steal`; the second type holds exactly when the first
      does not. */
  predicate Holds(t: StealType, steal: bool) {
    match t
    case Steal => steal
    case DontSteal => !steal
  }

  /** The loop of `getType`: the first type of `types` that holds. */
  function FirstType(types: seq<StealType>, steal: bool): (r: Option<StealType>)
    ensures r.None? <==> forall k :: 0 <= k < |types| ==> !Holds(types[k], steal)
    ensures r.Some? ==> r.value in types && Holds(r.value, steal)
  {
    if |types| == 0 then None
    else if Holds(types[0], steal) then Some(types[0])
    else FirstType(types[1..], steal)
  }

  /** `getType`: the steal type when the table names the hand, the other one otherwise; the exception after
      the loop cannot be reached. */
  function GetType(c1: Card, c2: Card): (r: Result<StealType>)
    ensures r.Success?
    ensures r.value == Steal <==> StealHand(c1, c2)
  {
    var steal := StealHand(c1, c2);
    assert Holds(AllStealTypes[0], steal) || Holds(AllStealTypes[1], steal);
    match FirstType(AllStealTypes, steal)
    case Some(t) => Success(t)
    case None => Failure(IllegalState)
  }

  /** Every pocket pair and every hand holding an ace is worth a steal. */
  lemma PairsAndAcesSteal(c1: Card, c2: Card)
    requires c1.rank == c2.rank || c1.rank == ACE || c2.rank == ACE
    ensures GetType(c1, c2) == Success(Steal)
  {
  }

  /** The order of the two cards does not matter. */
  lemma StealSymmetric(c1: Card, c2: Card)
    ensures GetType(c1, c2) == GetType(c2, c1)
  {
    PredicatesSymmetric(c1, c2, ACE, {});
    assert StealHand(c1, c2) == StealHand(c2, c1);
  }

  /** Every hand of the first starting-hand tier is worth a steal. */
  lemma AlwaysPlaySteals(c1: Card, c2: Card)
    requires StartingHands.AlwaysPlayHand(c1, c2)
    ensures StealHand(c1, c2)
  {
  }

  /** Every hand of the second starting-hand tier is worth a steal. */
  lemma MiddleLatePlaySteals(c1: Card, c2: Card)
    requires StartingHands.MiddleLatePlayHand(c1, c2)
    ensures StealHand(c1, c2)
  {
  }

  /** Hands played from early or middle position are worth a steal. */
  lemma PlayableHandsSteal(c1: Card, c2: Card)
    requires StartingHands.GetGroup(Some(c1), Some(c2)) in
      {Success(StartingHands.AlwaysPlay), Success(StartingHands.MiddleLatePlay)}
    ensures GetType(c1, c2) == Success(Steal)
  {
    StartingHands.GroupIsFirstTier(c1, c2);
    if StartingHands.AlwaysPlayHand(c1, c2) {
      AlwaysPlaySteals(c1, c2);
    } else {
      MiddleLatePlaySteals(c1, c2);
    }
  }

  /** Hands from the unit tests of the steal table. */
  lemma StealExamples()
    ensures GetType(Card(SIX, Hearts), Card(QUEEN, Diamonds)) == Success(DontSteal)
    ensures GetType(Card(DEUCE, Spades), Card(QUEEN, Diamonds)) == Success(DontSteal)
    ensures GetType(Card(QUEEN, Hearts), Card(QUEEN, Diamonds)) == Success(Steal)
    ensures GetType(Card(DEUCE, Spades), Card(ACE, Hearts)) == Success(Steal)
  {
    PairsAndAcesSteal(Card(QUEEN, Hearts), Card(QUEEN, Diamonds));
    PairsAndAcesSteal(Card(DEUCE, Spades), Card(ACE, Hearts));
  }
}
