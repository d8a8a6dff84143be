/** The post-flop `Hand` wrapper: the order on hands and the count of pocket cards that take part. */
module HandOrder {
  import opened Wrappers
  import opened Cards
  import opened PokerHands

  /** The first `n` cards of `xs` and `ys` have the same ranks, position by position. */
  ghost predicate SameRanksUpTo(xs: seq<Card>, ys: seq<Card>, n: int)
    requires 0 <= n <= |xs| && n <= |ys|
  {
    forall k :: 0 <= k < n ==> xs[k].rank == ys[k].rank
  }

  /** The rank loop of `compareTo`: walks the cards of `xs` and returns the first non-zero rank
      difference; reading a position past the end of `ys` fails. */
  function LexCompare(xs: seq<Card>, ys: seq<Card>): (r: Result<int>)
    ensures r.Failure? ==> r.error == IndexOutOfBounds
    ensures r.Failure? <==> |xs| > |ys| && SameRanksUpTo(xs, ys, |ys|)
    ensures r == Success(0) <==> |xs| <= |ys| && SameRanksUpTo(xs, ys, |xs|)
    ensures r.Success? && r.value != 0 ==>
      exists k :: 0 <= k < |xs| && k < |ys| && SameRanksUpTo(xs, ys, k) && r.value == xs[k].rank - ys[k].rank
  {
    if |xs| == 0 then Success(0)
    else if |ys| == 0 then Failure(IndexOutOfBounds)
    else if xs[0].rank != ys[0].rank then
      assert SameRanksUpTo(xs, ys, 0);
      Success(xs[0].rank - ys[0].rank)
    else
      var r := LexCompare(xs[1..], ys[1..]);
      assert forall n :: 0 <= n < |xs| && n < |ys| ==>
        (SameRanksUpTo(xs, ys, n + 1) <==> SameRanksUpTo(xs[1..], ys[1..], n)) by {
        forall n | 0 <= n < |xs| && n < |ys|
          ensures SameRanksUpTo(xs, ys, n + 1) <==> SameRanksUpTo(xs[1..], ys[1..], n)
        {
          if SameRanksUpTo(xs[1..], ys[1..], n) {
            forall k | 0 <= k < n + 1
              ensures xs[k].rank == ys[k].rank
            {
              if k > 0 {
                assert xs[k] == xs[1..][k - 1] && ys[k] == ys[1..][k - 1];
              }
            }
          }
        }
      }
      assert r.Success? && r.value != 0 ==>
        exists k :: 0 <= k < |xs| && k < |ys| && SameRanksUpTo(xs, ys, k) && r.value == xs[k].rank - ys[k].rank by {
        if r.Success? && r.value != 0 {
          var k :| 0 <= k < |xs[1..]| && k < |ys[1..]| && SameRanksUpTo(xs[1..], ys[1..], k) &&
            r.value == xs[1..][k].rank - ys[1..][k].rank;
          assert SameRanksUpTo(xs, ys, k + 1);
        }
      }
      r
  }

  /** `compareTo`: the difference of the categories' order values, or, for equal categories, the first
      non-zero rank difference. The identity test in front of it gives 0, which is also what comparing a
      hand with an equal one gives (see `CompareSelf`). */
  function Compare(a: GameHand, b: GameHand): (r: Result<int>)
    ensures a.category != b.category ==> r == Success(OrderValue(a.category) - OrderValue(b.category))
    ensures a.category != b.category ==> (r.value < 0 <==> OrderValue(a.category) < OrderValue(b.category))
    ensures a.category == b.category ==> r == LexCompare(a.cards, b.cards)
    ensures r.Failure? <==> a.category == b.category && |a.cards| > |b.cards| && SameRanksUpTo(a.cards, b.cards, |b.cards|)
  {
    var d := OrderValue(a.category) - OrderValue(b.category);
    if d != 0 then Success(d)
    else
      OrderValueInjectiveAll();
      LexCompare(a.cards, b.cards)
  }

  lemma OrderValueInjectiveAll()
    ensures forall a: Category, b: Category :: OrderValue(a) == OrderValue(b) ==> a == b
  {
    forall a: Category, b: Category | OrderValue(a) == OrderValue(b)
      ensures a == b
    {
      OrderValueInjective(a, b);
    }
  }

  /** Hands whose card lists have the same length can always be compared. */
  predicate Comparable(a: GameHand, b: GameHand) {
    |a.cards| == |b.cards|
  }

  /** Comparing a hand with itself gives 0. */
  lemma CompareSelf(h: GameHand)
    ensures Compare(h, h) == Success(0)
  {
  }

  /** Swapping the operands negates the result. */
  lemma {:induction false} LexAntisymmetric(xs: seq<Card>, ys: seq<Card>)
    requires |xs| == |ys|
    ensures LexCompare(xs, ys).Success? && LexCompare(ys, xs).Success?
    ensures LexCompare(xs, ys).value == -LexCompare(ys, xs).value
  {
    if |xs| > 0 && xs[0].rank == ys[0].rank {
      LexAntisymmetric(xs[1..], ys[1..]);
    }
  }

  lemma CompareAntisymmetric(a: GameHand, b: GameHand)
    requires Comparable(a, b)
    ensures Compare(a, b).Success? && Compare(b, a).Success?
    ensures Compare(a, b).value == -Compare(b, a).value
  {
    LexAntisymmetric(a.cards, b.cards);
  }

  lemma {:induction false} LexTransitive(xs: seq<Card>, ys: seq<Card>, zs: seq<Card>)
    requires |xs| == |ys| == |zs|
    requires LexCompare(xs, ys).value <= 0 && LexCompare(ys, zs).value <= 0
    ensures LexCompare(xs, zs).value <= 0
  {
    if |xs| > 0 && xs[0].rank == ys[0].rank && ys[0].rank == zs[0].rank {
      LexTransitive(xs[1..], ys[1..], zs[1..]);
    }
  }

  /** "At most" is transitive on hands of one length. */
  lemma CompareTransitive(a: GameHand, b: GameHand, c: GameHand)
    requires Comparable(a, b) && Comparable(b, c)
    requires Compare(a, b).value <= 0 && Compare(b, c).value <= 0
    ensures Compare(a, c).Success? && Compare(a, c).value <= 0
  {
    LexAntisymmetric(a.cards, c.cards);
    if a.category == b.category == c.category {
      LexTransitive(a.cards, b.cards, c.cards);
    }
  }

  /** Any two hands of one length are ordered one way or the other. */
  lemma CompareTotal(a: GameHand, b: GameHand)
    requires Comparable(a, b)
    ensures Compare(a, b).value <= 0 || Compare(b, a).value <= 0
  {
    CompareAntisymmetric(a, b);
  }

  /** `getNumberOfPocketCardsInPokerHand`: how many different pocket cards are among the first
      `cardsRequired` cards of the hand; taking that many cards fails on a shorter hand. */
  function PocketCardsInHand(h: GameHand, pocket: seq<Card>): (r: Result<nat>)
    ensures r.Failure? <==> |h.cards| < CardsRequired(h.category)
    ensures r.Failure? ==> r.error == IndexOutOfBounds
    ensures r.Success? ==> r.value <= |Elems(pocket)| && r.value <= CardsRequired(h.category)
    ensures r.Success? ==> r.value <= |pocket|
  {
    var n := CardsRequired(h.category);
    if |h.cards| < n then Failure(IndexOutOfBounds)
    else
      var common := Elems(pocket) * Elems(h.cards[..n]);
      SubsetSize(common, Elems(pocket));
      SubsetSize(common, Elems(h.cards[..n]));
      ElemsCardinalityBound(pocket);
      ElemsCardinalityBound(h.cards[..n]);
      Success(|common|)
  }

  /** How many cards of `pocket` occur in `lead`, counted card by card. */
  function PresentCount(pocket: seq<Card>, lead: seq<Card>): (n: nat)
    ensures n <= |pocket|
  {
    if |pocket| == 0 then 0 else (if pocket[0] in lead then 1 else 0) + PresentCount(pocket[1..], lead)
  }

  /** For different pocket cards the size of the set intersection is the card-by-card count. */
  lemma {:induction false} CommonIsPresentCount(pocket: seq<Card>, lead: seq<Card>)
    requires Distinct(pocket)
    ensures |Elems(pocket) * Elems(lead)| == PresentCount(pocket, lead)
  {
    if |pocket| > 0 {
      var rest := pocket[1..];
      assert Distinct(rest);
      CommonIsPresentCount(rest, lead);
      assert Elems(pocket) == {pocket[0]} + Elems(rest);
      assert pocket[0] !in Elems(rest);
      CommonStep(pocket[0], Elems(rest), Elems(lead));
    }
  }

  /** Adding a new element to one side of an intersection adds one to its size exactly when the other side
      holds it. */
  lemma CommonStep(x: Card, a: set<Card>, b: set<Card>)
    requires x !in a
    ensures |({x} + a) * b| == |a * b| + if x in b then 1 else 0
  {
    if x in b {
      assert ({x} + a) * b == {x} + a * b;
    } else {
      assert ({x} + a) * b == a * b;
    }
  }

  /** For different pocket cards the result is the number of them among the first `cardsRequired` cards of
      the hand. */
  lemma PocketCardsCount(h: GameHand, pocket: seq<Card>)
    requires |h.cards| >= CardsRequired(h.category) && Distinct(pocket)
    ensures PocketCardsInHand(h, pocket) == Success(PresentCount(pocket, h.cards[..CardsRequired(h.category)]))
  {
    CommonIsPresentCount(pocket, h.cards[..CardsRequired(h.category)]);
  }

  /** Two different pocket cards of which only the first leads the hand count once. */
  lemma OnePocketCardLeads(h: GameHand, x: Card, y: Card)
    requires |h.cards| >= CardsRequired(h.category) && x != y
    requires x in h.cards[..CardsRequired(h.category)] && y !in h.cards[..CardsRequired(h.category)]
    ensures PocketCardsInHand(h, [x, y]) == Success(1)
  {
    PocketCardsCount(h, [x, y]);
    assert [x, y][1..] == [y];
  }

  /** The count is exactly the number of pocket cards found among the leading cards: all of them when every
      pocket card is there, none when none is. */
  lemma PocketCardsExtremes(h: GameHand, pocket: seq<Card>)
    requires |h.cards| >= CardsRequired(h.category) && Distinct(pocket)
    ensures (forall c :: c in pocket ==> c in h.cards[..CardsRequired(h.category)]) ==>
      PocketCardsInHand(h, pocket) == Success(|pocket|)
    ensures (forall c :: c in pocket ==> c !in h.cards[..CardsRequired(h.category)]) ==>
      PocketCardsInHand(h, pocket) == Success(0)
  {
    var n := CardsRequired(h.category);
    var common := Elems(pocket) * Elems(h.cards[..n]);
    DistinctElemsCardinality(pocket);
    if forall c :: c in pocket ==> c in h.cards[..n] {
      assert common == Elems(pocket);
    }
    if forall c :: c in pocket ==> c !in h.cards[..n] {
      assert common == {};
    }
  }
}
