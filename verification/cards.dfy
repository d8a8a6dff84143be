/** Cards, ranks and suits, and the facts about card sequences that the rest of the model shares. */
module Cards {
  import Wrappers

  /** A rank is its order value: DEUCE is 2, ..., ACE is 14. */
  type Rank = r: int | 2 <= r <= 14 witness 2

  const DEUCE: Rank := 2
  const THREE: Rank := 3
  const FOUR: Rank := 4
  const FIVE: Rank := 5
  const SIX: Rank := 6
  const SEVEN: Rank := 7
  const EIGHT: Rank := 8
  const NINE: Rank := 9
  const TEN: Rank := 10
  const JACK: Rank := 11
  const QUEEN: Rank := 12
  const KING: Rank := 13
  const ACE: Rank := 14

  datatype Suit = Clubs | Diamonds | Hearts | Spades

  /** The tie-break order among suits used by the card comparators. */
  function SuitIndex(s: Suit): (i: nat)
    ensures i < 4
  {
    match s
    case Clubs => 0
    case Diamonds => 1
    case Hearts => 2
    case Spades => 3
  }

  datatype Card = Card(rank: Rank, suit: Suit)

  /** The ranks of the cards, in order. */
  function RankSeq(s: seq<Card>): (r: seq<int>)
    ensures |r| == |s|
    ensures forall i :: 0 <= i < |s| ==> r[i] == s[i].rank
  {
    if |s| == 0 then [] else [s[0].rank] + RankSeq(s[1..])
  }

  /** No card occurs twice. */
  predicate Distinct(s: seq<Card>) {
    forall i, j :: 0 <= i < j < |s| ==> s[i] != s[j]
  }

  function Elems(s: seq<Card>): set<Card> {
    set c | c in s
  }

  /** The cards of `s` that have rank `r`, in their order in `s`. */
  function WithRank(s: seq<Card>, r: Rank): (b: seq<Card>)
    ensures |b| <= |s|
    ensures forall c :: c in b <==> c in s && c.rank == r
    ensures Distinct(s) ==> Distinct(b)
  {
    if |s| == 0 then []
    else if s[0].rank == r then [s[0]] + WithRank(s[1..], r)
    else WithRank(s[1..], r)
  }

  /** The cards of `s` that have suit `u`, in their order in `s`. */
  function WithSuit(s: seq<Card>, u: Suit): (b: seq<Card>)
    ensures |b| <= |s|
    ensures forall c :: c in b <==> c in s && c.suit == u
    ensures Distinct(s) ==> Distinct(b)
  {
    if |s| == 0 then []
    else if s[0].suit == u then [s[0]] + WithSuit(s[1..], u)
    else WithSuit(s[1..], u)
  }

  /** Filtering by rank distributes over concatenation. */
  lemma {:induction false} WithRankAppend(a: seq<Card>, b: seq<Card>, r: Rank)
    ensures WithRank(a + b, r) == WithRank(a, r) + WithRank(b, r)
  {
    if |a| > 0 {
      assert (a + b)[0] == a[0] && (a + b)[1..] == a[1..] + b;
      WithRankAppend(a[1..], b, r);
      if a[0].rank == r {
        calc {
          WithRank(a + b, r);
          [a[0]] + WithRank(a[1..] + b, r);
          [a[0]] + (WithRank(a[1..], r) + WithRank(b, r));
          ([a[0]] + WithRank(a[1..], r)) + WithRank(b, r);
        }
      }
    } else {
      assert a + b == b;
    }
  }

  /** How many cards of `s` have rank `r`. */
  function Count(s: seq<Card>, r: Rank): nat {
    |WithRank(s, r)|
  }

  lemma {:induction false} DistinctElemsCardinality(s: seq<Card>)
    requires Distinct(s)
    ensures |Elems(s)| == |s|
  {
    if |s| > 0 {
      DistinctElemsCardinality(s[1..]);
      assert Elems(s) == {s[0]} + Elems(s[1..]);
      assert s[0] !in Elems(s[1..]);
    }
  }

  lemma {:induction false} ElemsCardinalityBound(s: seq<Card>)
    ensures |Elems(s)| <= |s|
  {
    if |s| > 0 {
      ElemsCardinalityBound(s[1..]);
      assert Elems(s) == {s[0]} + Elems(s[1..]);
    }
  }

  lemma {:induction false} DistinctMultiplicity(a: seq<Card>)
    requires Distinct(a)
    ensures forall x :: multiset(a)[x] <= 1
  {
    if |a| > 0 {
      DistinctMultiplicity(a[1..]);
      assert a == [a[0]] + a[1..];
      assert a[0] !in a[1..];
    }
  }

  lemma TwoCopies(b: seq<Card>, i: int, j: int)
    requires 0 <= i < j < |b| && b[i] == b[j]
    ensures multiset(b)[b[i]] >= 2
  {
    assert b == b[..i] + [b[i]] + b[i+1..j] + [b[j]] + b[j+1..];
  }

  lemma SameCardsKeepDistinct(a: seq<Card>, b: seq<Card>)
    requires multiset(a) == multiset(b) && Distinct(a)
    ensures Distinct(b)
  {
    DistinctMultiplicity(a);
    forall i, j | 0 <= i < j < |b|
      ensures b[i] != b[j]
    {
      if b[i] == b[j] {
        TwoCopies(b, i, j);
      }
    }
  }

  /** Two duplicate-free sequences with no card in common concatenate to a duplicate-free one. */
  lemma DistinctConcat(a: seq<Card>, b: seq<Card>)
    requires Distinct(a) && Distinct(b)
    requires forall c :: c in a ==> c !in b
    ensures Distinct(a + b)
  {
    forall i, j | 0 <= i < j < |a + b|
      ensures (a + b)[i] != (a + b)[j]
    {
      if i < |a| && j >= |a| {
        assert (a + b)[i] in a;
        assert (a + b)[j] == b[j - |a|];
      }
    }
  }

  /** The converse: both halves of a duplicate-free sequence are duplicate-free and share no card. */
  lemma DistinctSplit(a: seq<Card>, b: seq<Card>)
    requires Distinct(a + b)
    ensures Distinct(a) && Distinct(b)
    ensures forall c :: c in a ==> c !in b
  {
    assert forall i :: 0 <= i < |a| ==> (a + b)[i] == a[i];
    assert forall j :: 0 <= j < |b| ==> (a + b)[|a| + j] == b[j];
  }

  /** Cards whose ranks all differ are all different. */
  lemma DistinctRanksDistinct(s: seq<Card>)
    requires forall i, j :: 0 <= i < j < |s| ==> s[i].rank != s[j].rank
    ensures Distinct(s)
  {
  }

  /** Distinct cards of one rank differ in suit, so there are at most four of them. */
  lemma CountAtMostFour(s: seq<Card>, r: Rank)
    requires Distinct(s)
    ensures Count(s, r) <= 4
  {
    var b := WithRank(s, r);
    DistinctElemsCardinality(b);
    var all := {Card(r, Clubs), Card(r, Diamonds), Card(r, Hearts), Card(r, Spades)};
    forall c | c in Elems(b)
      ensures c in all
    {
      CardAmongItsRank(c);
    }
    Wrappers.SubsetSize(Elems(b), all);
  }

  /** Two suits with five cards each need ten distinct cards. */
  lemma {:induction false} SuitBucketsDisjointSize(s: seq<Card>, u: Suit, v: Suit)
    requires Distinct(s) && u != v
    ensures |WithSuit(s, u)| + |WithSuit(s, v)| <= |s|
  {
    if |s| > 0 {
      SuitBucketsDisjointSize(s[1..], u, v);
    }
  }

  /** The four cards of rank `r`, in suit order. */
  function CardsOfRank(r: Rank): seq<Card> {
    [Card(r, Clubs), Card(r, Diamonds), Card(r, Hearts), Card(r, Spades)]
  }

  lemma CardAmongItsRank(c: Card)
    ensures c in CardsOfRank(c.rank)
  {
    match c.suit
    case Clubs => assert CardsOfRank(c.rank)[0] == c;
    case Diamonds => assert CardsOfRank(c.rank)[1] == c;
    case Hearts => assert CardsOfRank(c.rank)[2] == c;
    case Spades => assert CardsOfRank(c.rank)[3] == c;
  }

  /** The cards of rank `from` and above, rank by rank. */
  function DeckFrom(from: int): (d: seq<Card>)
    requires 2 <= from <= 15
    ensures |d| == 4 * (15 - from)
    ensures forall c: Card :: c in d <==> c.rank >= from
    ensures Distinct(d)
    decreases 15 - from
  {
    if from == 15 then []
    else
      var rest := DeckFrom(from + 1);
      var here := CardsOfRank(from);
      assert forall c: Card :: c.rank == from ==> c in here by {
        forall c: Card | c.rank == from
          ensures c in here
        {
          CardAmongItsRank(c);
        }
      }
      assert forall c :: c in here ==> c.rank == from;
      DistinctConcat(here, rest);
      here + rest
  }

  lemma DeckCardinality(from: int)
    requires 2 <= from <= 15
    ensures |Elems(DeckFrom(from))| == 4 * (15 - from)
    ensures forall c: Card :: c.rank >= from ==> c in Elems(DeckFrom(from))
  {
    DistinctElemsCardinality(DeckFrom(from));
  }

  /** The 52-card deck as a set: every card, each once. */
  function FullDeck(): (d: set<Card>)
    ensures forall c: Card :: c in d
    ensures |d| == 52
  {
    var lowest := 2;
    DeckCardinality(lowest);
    Elems(DeckFrom(lowest))
  }
}
