/** The starting-hand tiers: four groups of pocket cards tried in declaration order, the last one holding
    every hand the first three leave out. */
module StartingHands {
  import opened Wrappers
  import opened Cards
  import opened PocketRules

  datatype StartingHandType = AlwaysPlay | MiddleLatePlay | OnlyLatePlay | NoPlay

  /** Declaration order, which is the order `getGroup` tries the tiers in. */
  function Ordinal(t: StartingHandType): (i: nat)
    ensures i < 4
  {
    match t
    case AlwaysPlay => 0
    case MiddleLatePlay => 1
    case OnlyLatePlay => 2
    case NoPlay => 3
  }

  const AllTypes: seq<StartingHandType> := [AlwaysPlay, MiddleLatePlay, OnlyLatePlay, NoPlay]

  predicate AlwaysPlayHand(c1: Card, c2: Card) {
    IsPairOf(c1, c2, RankRange(SEVEN, ACE)) ||
    IsCombinationWith(c1, c2, ACE, RankRange(TEN, KING)) ||
    IsCombinationWith(c1, c2, KING, RankRange(JACK, QUEEN)) ||
    IsSuitedCombinationWith(c1, c2, KING, {TEN}) ||
    IsSuitedCombinationWith(c1, c2, QUEEN, RankRange(TEN, JACK)) ||
    IsSuitedCombinationWith(c1, c2, JACK, RankRange(NINE, TEN)) ||
    IsSuitedCombinationOf(c1, c2, {NINE, TEN})
  }

  predicate MiddleLatePlayHand(c1: Card, c2: Card) {
    IsPairOf(c1, c2, {FIVE, SIX}) ||
    IsSuitedCombinationWith(c1, c2, ACE, RankRange(SIX, NINE)) ||
    IsSuitedCombinationWith(c1, c2, QUEEN, RankRange(EIGHT, NINE)) ||
    IsCombinationWith(c1, c2, QUEEN, RankRange(TEN, JACK)) ||
    IsSuitedCombinationWith(c1, c2, KING, {NINE}) ||
    IsSuitedCombinationWith(c1, c2, JACK, {EIGHT}) ||
    IsSuitedCombinationWith(c1, c2, NINE, {EIGHT}) ||
    IsSuitedCombinationWith(c1, c2, TEN, {EIGHT}) ||
    IsCombinationWith(c1, c2, KING, {TEN}) ||
    IsCombinationWith(c1, c2, JACK, {TEN})
  }

  predicate OnlyLatePlayHand(c1: Card, c2: Card) {
    IsPairOf(c1, c2, RankRange(DEUCE, THREE)) ||
    IsCombinationWith(c1, c2, ACE, RankRange(SEVEN, NINE)) ||
    IsSuitedCombinationWith(c1, c2, ACE, RankRange(DEUCE, FIVE)) ||
    IsSuitedCombinationWith(c1, c2, KING, RankRange(DEUCE, EIGHT)) ||
    IsCombinationWith(c1, c2, KING, {NINE}) ||
    IsCombinationWith(c1, c2, QUEEN, {NINE}) ||
    IsSuitedCombinationWith(c1, c2, JACK, {SEVEN}) ||
    IsCombinationWith(c1, c2, JACK, RankRange(EIGHT, NINE)) ||
    IsCombinationWith(c1, c2, TEN, RankRange(EIGHT, NINE)) ||
    IsCombinationWith(c1, c2, NINE, RankRange(SEVEN, EIGHT)) ||
    IsCombinationWith(c1, c2, EIGHT, {SEVEN}) ||
    IsSuitedCombinationWith(c1, c2, TEN, {SEVEN}) ||
    IsSuitedCombinationWith(c1, c2, NINE, RankRange(SIX, SEVEN)) ||
    IsSuitedCombinationWith(c1, c2, EIGHT, RankRange(SIX, SEVEN)) ||
    IsSuitedCombinationWith(c1, c2, SEVEN, RankRange(FIVE, SIX)) ||
    IsSuitedCombinationWith(c1, c2, SIX, {FIVE}) ||
    IsSuitedCombinationWith(c1, c2, FIVE, {FOUR})
  }

  /** What the three declared tables say of one hand. */
  datatype Verdicts = Verdicts(always: bool, middleLate: bool, onlyLate: bool)

  function VerdictsOf(c1: Card, c2: Card): Verdicts {
    Verdicts(AlwaysPlayHand(c1, c2), MiddleLatePlayHand(c1, c2), OnlyLatePlayHand(c1, c2))
  }

  /** Whether tier `t` holds a hand the tables judge as `v`; the last tier holds exactly when none of the
      other three does. */
  predicate Holds(t: StartingHandType, v: Verdicts) {
    match t
    case AlwaysPlay => v.always
    case MiddleLatePlay => v.middleLate
    case OnlyLatePlay => v.onlyLate
    case NoPlay => !v.always && !v.middleLate && !v.onlyLate
  }

  /** `isInGroup`. */
  predicate InGroup(t: StartingHandType, c1: Card, c2: Card) {
    Holds(t, VerdictsOf(c1, c2))
  }

  /** The loop of `getGroup`: the first tier of `types` that holds. */
  function FirstInGroup(types: seq<StartingHandType>, v: Verdicts): (r: Option<StartingHandType>)
    ensures r.None? <==> forall k :: 0 <= k < |types| ==> !Holds(types[k], v)
    ensures r.Some? ==> exists k :: (0 <= k < |types| && types[k] == r.value && Holds(r.value, v) &&
      forall j :: 0 <= j < k ==> !Holds(types[j], v))
  {
    if |types| == 0 then None
    else if Holds(types[0], v) then
      assert types[0] == types[0];
      Some(types[0])
    else
      var r := FirstInGroup(types[1..], v);
      assert r.Some? ==> exists k :: (0 <= k < |types| && types[k] == r.value && Holds(r.value, v) &&
        forall j :: 0 <= j < k ==> !Holds(types[j], v)) by {
        if r.Some? {
          var k :| 0 <= k < |types[1..]| && types[1..][k] == r.value && Holds(r.value, v) &&
            forall j :: 0 <= j < k ==> !Holds(types[1..][j], v);
          assert types[k + 1] == r.value;
        }
      }
      r
  }

  /** `getGroup`: rejects a missing card, otherwise the first tier in declaration order that holds the
      hand. */
  function GetGroup(c1: Option<Card>, c2: Option<Card>): (r: Result<StartingHandType>)
    ensures c1.None? || c2.None? ==> r == Failure(NullArgument)
    ensures c1.Some? && c2.Some? ==> r.Success?
    ensures r.Success? ==> InGroup(r.value, c1.value, c2.value)
    ensures r.Success? ==> forall t :: Ordinal(t) < Ordinal(r.value) ==> !InGroup(t, c1.value, c2.value)
  {
    if c1.None? || c2.None? then Failure(NullArgument)
    else GroupOf(VerdictsOf(c1.value, c2.value))
  }

  /** The loop of `getGroup` over the tables' verdicts on a hand. The exception after the loop cannot be
      reached, because the last tier takes every hand the others refuse. */
  function GroupOf(v: Verdicts): (r: Result<StartingHandType>)
    ensures r.Success? && Holds(r.value, v)
    ensures forall t :: Ordinal(t) < Ordinal(r.value) ==> !Holds(t, v)
  {
    assert Holds(AllTypes[0], v) || Holds(AllTypes[1], v) || Holds(AllTypes[2], v) || Holds(AllTypes[3], v);
    match FirstInGroup(AllTypes, v)
    case Some(t) =>
      assert forall u :: Ordinal(u) < Ordinal(t) ==> !Holds(u, v) by {
        forall u | Ordinal(u) < Ordinal(t)
          ensures !Holds(u, v)
        {
          assert AllTypes[Ordinal(u)] == u && AllTypes[Ordinal(t)] == t;
        }
      }
      Success(t)
    case None => Failure(IllegalState)
  }

  /** The last tier is chosen exactly when none of the others holds, and each of the others exactly when it
      holds and no earlier one does. */
  lemma GroupIsFirstTier(c1: Card, c2: Card)
    ensures GetGroup(Some(c1), Some(c2)) == Success(
      if AlwaysPlayHand(c1, c2) then AlwaysPlay
      else if MiddleLatePlayHand(c1, c2) then MiddleLatePlay
      else if OnlyLatePlayHand(c1, c2) then OnlyLatePlay
      else NoPlay)
  {
    var r := GetGroup(Some(c1), Some(c2));
    assert Ordinal(AlwaysPlay) == 0 && Ordinal(MiddleLatePlay) == 1 && Ordinal(OnlyLatePlay) == 2;
  }

  /** The order of the two cards does not matter. */
  lemma GroupSymmetric(c1: Card, c2: Card)
    ensures GetGroup(Some(c1), Some(c2)) == GetGroup(Some(c2), Some(c1))
  {
    PredicatesSymmetric(c1, c2, ACE, {});
    assert VerdictsOf(c1, c2) == VerdictsOf(c2, c1);
  }

  /** Pocket pairs: seven and up always play, fives and sixes play from middle or late position, deuces and
      threes only late, and fours fall through every table. */
  lemma PocketPairGroups(c1: Card, c2: Card)
    requires c1.rank == c2.rank
    ensures GetGroup(Some(c1), Some(c2)) == Success(
      if c1.rank >= SEVEN then AlwaysPlay
      else if c1.rank == FIVE || c1.rank == SIX then MiddleLatePlay
      else if c1.rank <= THREE then OnlyLatePlay
      else NoPlay)
  {
    GroupIsFirstTier(c1, c2);
  }

  /** Hands from the unit test of the first tier. */
  lemma AlwaysPlayExamples()
    ensures GetGroup(Some(Card(ACE, Clubs)), Some(Card(ACE, Hearts))) == Success(AlwaysPlay)
    ensures GetGroup(Some(Card(KING, Clubs)), Some(Card(KING, Hearts))) == Success(AlwaysPlay)
    ensures GetGroup(Some(Card(ACE, Clubs)), Some(Card(KING, Hearts))) == Success(AlwaysPlay)
    ensures GetGroup(Some(Card(QUEEN, Hearts)), Some(Card(QUEEN, Clubs))) == Success(AlwaysPlay)
    ensures GetGroup(Some(Card(JACK, Clubs)), Some(Card(JACK, Spades))) == Success(AlwaysPlay)
    ensures GetGroup(Some(Card(TEN, Diamonds)), Some(Card(TEN, Hearts))) == Success(AlwaysPlay)
    ensures GetGroup(Some(Card(NINE, Diamonds)), Some(Card(NINE, Hearts))) == Success(AlwaysPlay)
    ensures GetGroup(Some(Card(EIGHT, Diamonds)), Some(Card(EIGHT, Hearts))) == Success(AlwaysPlay)
    ensures GetGroup(Some(Card(ACE, Clubs)), Some(Card(QUEEN, Hearts))) == Success(AlwaysPlay)
  {
    AlwaysPlayVerdicts();
  }

  /** The first table names every hand of its unit test. */
  lemma AlwaysPlayVerdicts()
    ensures VerdictsOf(Card(ACE, Clubs), Card(ACE, Hearts)).always
    ensures VerdictsOf(Card(KING, Clubs), Card(KING, Hearts)).always
    ensures VerdictsOf(Card(ACE, Clubs), Card(KING, Hearts)).always
    ensures VerdictsOf(Card(QUEEN, Hearts), Card(QUEEN, Clubs)).always
    ensures VerdictsOf(Card(JACK, Clubs), Card(JACK, Spades)).always
    ensures VerdictsOf(Card(TEN, Diamonds), Card(TEN, Hearts)).always
    ensures VerdictsOf(Card(NINE, Diamonds), Card(NINE, Hearts)).always
    ensures VerdictsOf(Card(EIGHT, Diamonds), Card(EIGHT, Hearts)).always
    ensures VerdictsOf(Card(ACE, Clubs), Card(QUEEN, Hearts)).always
  {
  }

  /** Hands from the unit test of the second tier: a suited ace-nine is in it, a suited queen-jack is not. */
  lemma MiddleLatePlayExamples()
    ensures GetGroup(Some(Card(NINE, Hearts)), Some(Card(ACE, Hearts))) == Success(MiddleLatePlay)
    ensures GetGroup(Some(Card(JACK, Clubs)), Some(Card(QUEEN, Clubs))) != Success(MiddleLatePlay)
  {
    GroupIsFirstTier(Card(NINE, Hearts), Card(ACE, Hearts));
    GroupIsFirstTier(Card(JACK, Clubs), Card(QUEEN, Clubs));
  }

  /** Hands from the unit test of the third tier. */
  lemma OnlyLatePlayExamples()
    ensures GetGroup(Some(Card(ACE, Clubs)), Some(Card(EIGHT, Hearts))) == Success(OnlyLatePlay)
    ensures GetGroup(Some(Card(NINE, Hearts)), Some(Card(EIGHT, Diamonds))) == Success(OnlyLatePlay)
    ensures GetGroup(Some(Card(QUEEN, Clubs)), Some(Card(NINE, Diamonds))) == Success(OnlyLatePlay)
  {
    OnlyLatePlayVerdicts();
  }

  /** Only the third table names the hands of its unit test. */
  lemma OnlyLatePlayVerdicts()
    ensures VerdictsOf(Card(ACE, Clubs), Card(EIGHT, Hearts)) == Verdicts(false, false, true)
    ensures VerdictsOf(Card(NINE, Hearts), Card(EIGHT, Diamonds)) == Verdicts(false, false, true)
    ensures VerdictsOf(Card(QUEEN, Clubs), Card(NINE, Diamonds)) == Verdicts(false, false, true)
  {
  }

  /** Hands from the unit test of the last tier: none of the three tables names them. */
  lemma NoPlayExamples()
    ensures GetGroup(Some(Card(DEUCE, Hearts)), Some(Card(TEN, Hearts))) == Success(NoPlay)
    ensures GetGroup(Some(Card(DEUCE, Hearts)), Some(Card(THREE, Hearts))) == Success(NoPlay)
    ensures GetGroup(Some(Card(FIVE, Hearts)), Some(Card(THREE, Hearts))) == Success(NoPlay)
    ensures GetGroup(Some(Card(EIGHT, Diamonds)), Some(Card(THREE, Hearts))) == Success(NoPlay)
  {
    NoTableNoPlay(Card(DEUCE, Hearts), Card(TEN, Hearts));
    NoTableNoPlay(Card(DEUCE, Hearts), Card(THREE, Hearts));
    NoTableNoPlay(Card(FIVE, Hearts), Card(THREE, Hearts));
    NoTableNoPlay(Card(EIGHT, Diamonds), Card(THREE, Hearts));
  }

  /** A deuce or a three beside a different rank below jack, suited or not, is named by no table. */
  lemma NoTableNoPlay(c1: Card, c2: Card)
    requires c1.rank != c2.rank && c1.rank < JACK && c2.rank < JACK
    requires c1.rank <= THREE || c2.rank <= THREE
    ensures GetGroup(Some(c1), Some(c2)) == Success(NoPlay)
  {
    GroupIsFirstTier(c1, c2);
  }
}
