/** The pre-flop strategy: the pocket cards, their tier computed once, the position from the blinds and the
    dealer button, and the table of rules that picks an action. */
module PreFlopStrategy {
  import opened Wrappers
  import opened Cards
  import opened StartingHands
  import opened ActionUtils
  import opened Positions

  /** The strategy's fields: the two pocket cards, the cached tier and the number of raises so far. */
  datatype PreFlopState = PreFlopState(c1: Option<Card>, c2: Option<Card>, cachedType: Option<StartingHandType>,
                                       raises: int)

  /** A new strategy: no cards, no tier, no raises. */
  function NewStrategy(): (s: PreFlopState)
    ensures s.c1.None? && s.c2.None? && s.cachedType.None? && s.raises == 0
  {
    PreFlopState(None, None, None, 0)
  }

  /** `putPocketCard`: rejects a missing card; the first card fills the first slot and every later one
      overwrites the second. */
  function PutPocketCard(s: PreFlopState, card: Option<Card>): (r: Result<PreFlopState>)
    ensures r.Failure? <==> card.None?
    ensures r.Failure? ==> r.error == NullArgument
    ensures r.Success? ==> r.value.cachedType == s.cachedType && r.value.raises == s.raises
    ensures r.Success? ==> (r.value.c1 == card || r.value.c2 == card) && r.value.c1.Some?
    ensures r.Success? && s.c1.Some? ==> r.value.c1 == s.c1
    ensures r.Success? && s.c1.None? ==> r.value.c1 == card && r.value.c2 == s.c2
    ensures r.Success? && s.c1.Some? ==> r.value.c2 == card
  {
    if card.None? then Failure(NullArgument)
    else if s.c1.None? then Success(s.(c1 := card))
    else Success(s.(c2 := card))
  }

  /** Two cards dealt to a new strategy land in order; a third replaces the second. */
  lemma DealingPocketCards(a: Card, b: Card, c: Card)
    ensures var s1 := PutPocketCard(NewStrategy(), Some(a)).value;
      var s2 := PutPocketCard(s1, Some(b)).value;
      var s3 := PutPocketCard(s2, Some(c)).value;
      s2.c1 == Some(a) && s2.c2 == Some(b) && s3.c1 == Some(a) && s3.c2 == Some(c)
  {
  }

  /** `getType`: the cached tier, or the tier of the pocket cards, which is then cached; a missing card
      fails the tier lookup. */
  function TypeOf(s: PreFlopState): (r: Result<(StartingHandType, PreFlopState)>)
    ensures s.cachedType.Some? ==> r == Success((s.cachedType.value, s))
    ensures s.cachedType.None? ==> (r.Success? <==> s.c1.Some? && s.c2.Some?)
    ensures r.Failure? ==> r.error == NullArgument
    ensures r.Success? ==> r.value.1 == s.(cachedType := Some(r.value.0))
    ensures r.Success? && s.cachedType.None? ==> InGroup(r.value.0, s.c1.value, s.c2.value)
    ensures r.Success? && s.cachedType.None? ==>
      forall t :: Ordinal(t) < Ordinal(r.value.0) ==> !InGroup(t, s.c1.value, s.c2.value)
    ensures r.Success? && s.cachedType.None? ==> GetGroup(s.c1, s.c2) == Success(r.value.0)
  {
    if s.cachedType.Some? then Success((s.cachedType.value, s))
    else
      match GetGroup(s.c1, s.c2)
      case Failure(e) => Failure(e)
      case Success(t) => Success((t, s.(cachedType := Some(t))))
  }

  /** The tier is computed once: asking again gives the same tier and changes nothing, and cards put after
      that do not change it. */
  lemma TypeComputedOnce(s: PreFlopState, card: Option<Card>)
    requires TypeOf(s).Success?
    ensures var (t, s') := TypeOf(s).value;
      TypeOf(s') == Success((t, s')) &&
      (PutPocketCard(s', card).Success? ==> TypeOf(PutPocketCard(s', card).value).value.0 == t)
  {
  }

  /** `getPosition`: the dealer is late, or middle when also the small blind; otherwise the blinds are early
      and everybody else is middle. */
  function PositionOf(isDealer: bool, isSmallBlind: bool, isBigBlind: bool): (p: Position)
    ensures p == Late <==> isDealer && !isSmallBlind
    ensures p == Early <==> !isDealer && (isSmallBlind || isBigBlind)
  {
    if isDealer then (if isSmallBlind then Middle else Late)
    else if isSmallBlind || isBigBlind then Early
    else Middle
  }

  /** The rules of `getPreFlopAction` in order, each tried only while no action has been chosen. The rule
      for the last tier and the final fallback make the same choice, check or else fold, so a hand of the
      last tier goes straight to it. */
  function Decide(t: StartingHandType, position: Position, raises: int, m: map<ActionType, Action>,
                  someoneAllIn: bool): (r: Option<Action>)
    ensures r.Some? ==> r.value in m.Values
    ensures r.None? ==> Check !in m && Fold !in m
    ensures Check in m || Fold in m ==> r.Some?
  {
    var a := TierRule(t, position, raises, m, someoneAllIn);
    if t != NoPlay && a.Some? then
      ChosenFromMap(m, someoneAllIn, t, position, raises);
      a
    else
      assert [Check, Fold][0] == Check && [Check, Fold][1] == Fold;
      ChooseInOrderFrom(m, [Check, Fold])
  }

  /** The three rules between the first and the fallback: the first tier raises when it can, the second does so from middle or
      late position while fewer than three raises were made, the third calls from late position. */
  function TierRule(t: StartingHandType, position: Position, raises: int, m: map<ActionType, Action>,
                 someoneAllIn: bool): Option<Action>
  {
    if t == AlwaysPlay then SafelyChooseInOrderFrom(m, someoneAllIn, [Raise, Call, Check])
    else if t == MiddleLatePlay && position in {Middle, Late} then
      if raises < 3 then SafelyChooseInOrderFrom(m, someoneAllIn, [Raise, Call, Check])
      else SafelyChooseInOrderFrom(m, someoneAllIn, [Call, Check])
    else if t == OnlyLatePlay && position == Late then SafelyChooseInOrderFrom(m, someoneAllIn, [Call, Check])
    else None
  }

  lemma ChosenFromMap(m: map<ActionType, Action>, someoneAllIn: bool, t: StartingHandType, position: Position,
                      raises: int)
    ensures var a := TierRule(t, position, raises, m, someoneAllIn); a.Some? ==> a.value in m.Values
  {
    var a := TierRule(t, position, raises, m, someoneAllIn);
    if a.Some? {
      var prefs := if t == AlwaysPlay || (t == MiddleLatePlay && raises < 3) then [Raise, Call, Check] else [Call, Check];
      if !someoneAllIn && m.Keys == {AllIn, Fold} {
        assert a.value == m[AllIn];
      } else {
        var c := if someoneAllIn then ChooseInOrderFrom(m, [Check, Fold]) else ChooseInOrderFrom(m, prefs);
        assert a == c;
        var i :| 0 <= i < |(if someoneAllIn then [Check, Fold] else prefs)| &&
          (if someoneAllIn then [Check, Fold] else prefs)[i] in m &&
          c.value == m[(if someoneAllIn then [Check, Fold] else prefs)[i]];
      }
    }
  }

  /** The hand is good enough to play from this position: the first tier anywhere, the second from middle
      or late position, the third from late position. */
  predicate Plays(t: StartingHandType, position: Position) {
    t == AlwaysPlay || (t == MiddleLatePlay && position != Early) || (t == OnlyLatePlay && position == Late)
  }

  /** The rules as a whole: with someone all-in, or a hand not played from this position, check or else
      fold; a played hand offered only all-in and fold goes all-in; otherwise it takes the first offered of
      raise (first tier, or second tier before the third raise), call, check and fold. */
  lemma DecideRules(t: StartingHandType, position: Position, raises: int, m: map<ActionType, Action>,
                    someoneAllIn: bool)
    ensures someoneAllIn || !Plays(t, position) ==>
      Decide(t, position, raises, m, someoneAllIn) == ChooseInOrderFrom(m, [Check, Fold])
    ensures Plays(t, position) && !someoneAllIn && m.Keys == {AllIn, Fold} ==>
      Decide(t, position, raises, m, someoneAllIn) == Some(m[AllIn])
    ensures Plays(t, position) && !someoneAllIn && m.Keys != {AllIn, Fold} ==>
      Decide(t, position, raises, m, someoneAllIn) == ChooseInOrderFrom(m,
        if t == AlwaysPlay || (t == MiddleLatePlay && raises < 3) then [Raise, Call, Check, Fold]
        else [Call, Check, Fold])
  {
    if Plays(t, position) && !someoneAllIn && m.Keys != {AllIn, Fold} {
      DecidePrefers(t, position, raises, m, someoneAllIn);
    }
  }

  /** The last case of the rules above. */
  lemma DecidePrefers(t: StartingHandType, position: Position, raises: int, m: map<ActionType, Action>,
                      someoneAllIn: bool)
    requires Plays(t, position) && !someoneAllIn && m.Keys != {AllIn, Fold}
    ensures Decide(t, position, raises, m, someoneAllIn) == ChooseInOrderFrom(m,
      if t == AlwaysPlay || (t == MiddleLatePlay && raises < 3) then [Raise, Call, Check, Fold]
      else [Call, Check, Fold])
  {
    var prefs := if t == AlwaysPlay || (t == MiddleLatePlay && raises < 3) then [Raise, Call, Check]
      else [Call, Check];
    assert TierRule(t, position, raises, m, someoneAllIn) == ChooseInOrderFrom(m, prefs);
    ChooseAppend(m, prefs, [Fold]);
    assert prefs + [Fold] == if t == AlwaysPlay || (t == MiddleLatePlay && raises < 3) then [Raise, Call, Check, Fold]
      else [Call, Check, Fold];
    if ChooseInOrderFrom(m, prefs).None? {
      assert Check == prefs[|prefs| - 1] && Check !in m;
      ChooseAppend(m, [Check], [Fold]);
      assert [Check] + [Fold] == [Check, Fold];
    }
  }

  /** `getPreFlopAction`, with the seat's roles and whether anybody has gone all-in passed in: the action the
      rules choose, counting it when it is a raise; no action offered to the last rule is a null
      dereference. */
  function GetPreFlopAction(s: PreFlopState, possible: seq<Action>, isDealer: bool, isSmallBlind: bool,
                            isBigBlind: bool, someoneAllIn: bool): (r: Result<(Action, PreFlopState)>)
    ensures r.Success? ==> r.value.0 in possible
    ensures r.Success? ==> r.value.1.raises == s.raises + if r.value.0.actionType == Raise then 1 else 0
    ensures r.Success? ==> r.value.1.c1 == s.c1 && r.value.1.c2 == s.c2 && r.value.1.cachedType.Some?
    ensures r.Failure? ==> ((r.error == NullArgument && TypeOf(s).Failure?) ||
      (r.error == NullDereference && forall a :: a in possible ==> a.actionType !in {Check, Fold}))
    ensures TypeOf(s).Success? && (exists a :: a in possible && a.actionType in {Check, Fold}) ==> r.Success?
  {
    var m := ActionMapOf(possible);
    match TypeOf(s)
    case Failure(e) => Failure(e)
    case Success((t, s')) =>
      var position := PositionOf(isDealer, isSmallBlind, isBigBlind);
      match Decide(t, position, s'.raises, m, someoneAllIn)
      case None => Failure(NullDereference)
      case Some(a) =>
        assert a in possible by {
          var k :| k in m && m[k] == a;
        }
        Success((a, s'.(raises := s'.raises + if a.actionType == Raise then 1 else 0)))
  }

  /** Only the first tier, or the second from middle or late position before the third raise, ever raises;
      in particular no raise follows three raises unless the hand is of the first tier. */
  lemma RaiseOnlyWhenAllowed(s: PreFlopState, possible: seq<Action>, isDealer: bool, isSmallBlind: bool,
                             isBigBlind: bool, someoneAllIn: bool)
    requires GetPreFlopAction(s, possible, isDealer, isSmallBlind, isBigBlind, someoneAllIn).Success?
    ensures var (a, s') := GetPreFlopAction(s, possible, isDealer, isSmallBlind, isBigBlind, someoneAllIn).value;
      var t := s'.cachedType.value;
      a.actionType == Raise ==> (t == AlwaysPlay ||
        (t == MiddleLatePlay && s.raises < 3 && PositionOf(isDealer, isSmallBlind, isBigBlind) != Early))
  {
    var m := ActionMapOf(possible);
    var (t, s1) := TypeOf(s).value;
    var position := PositionOf(isDealer, isSmallBlind, isBigBlind);
    var a := Decide(t, position, s1.raises, m, someoneAllIn).value;
    if t != AlwaysPlay && !(t == MiddleLatePlay && s.raises < 3 && position != Early) {
      NoRaiseOutsideRaiseRules(t, position, s1.raises, m, someoneAllIn);
    }
  }

  lemma NoRaiseOutsideRaiseRules(t: StartingHandType, position: Position, raises: int, m: map<ActionType, Action>,
                                 someoneAllIn: bool)
    requires forall k :: k in m ==> m[k].actionType == k
    requires t != AlwaysPlay && !(t == MiddleLatePlay && raises < 3 && position != Early)
    ensures var a := Decide(t, position, raises, m, someoneAllIn); a.Some? ==> a.value.actionType != Raise
  {
    var a := Decide(t, position, raises, m, someoneAllIn);
    if a.Some? {
      var prefs: seq<ActionType> := [Call, Check];
      var step := TierRule(t, position, raises, m, someoneAllIn);
      if t != NoPlay && step.Some? {
        if someoneAllIn {
          var i :| 0 <= i < 2 && [Check, Fold][i] in m && step.value == m[[Check, Fold][i]];
        } else if m.Keys == {AllIn, Fold} {
        } else {
          var i :| 0 <= i < |prefs| && prefs[i] in m && step.value == m[prefs[i]];
        }
      } else {
        var i :| 0 <= i < 2 && [Check, Fold][i] in m && a.value == m[[Check, Fold][i]];
      }
    }
  }

  /** A hand of the last tier checks when it can and folds otherwise. */
  lemma NoPlayChecksOrFolds(s: PreFlopState, possible: seq<Action>, isDealer: bool, isSmallBlind: bool,
                            isBigBlind: bool, someoneAllIn: bool)
    requires TypeOf(s).Success? && TypeOf(s).value.0 == NoPlay
    requires exists a :: a in possible && a.actionType in {Check, Fold}
    ensures var (a, _) := GetPreFlopAction(s, possible, isDealer, isSmallBlind, isBigBlind, someoneAllIn).value;
      a.actionType == (if exists c :: c in possible && c.actionType == Check then Check else Fold)
  {
    var m := ActionMapOf(possible);
    var c := ChooseInOrderFrom(m, [Check, Fold]);
    var i :| 0 <= i < 2 && [Check, Fold][i] in m && c.value == m[[Check, Fold][i]] &&
      forall j :: 0 <= j < i ==> [Check, Fold][j] !in m;
  }

  /** `getPreFlopAction` plays what the rules decide for the cached tier, the seat's position and the raises
      made so far, and fails exactly when they decide nothing. */
  lemma PreFlopActionFollowsRules(s: PreFlopState, possible: seq<Action>, isDealer: bool, isSmallBlind: bool,
                                  isBigBlind: bool, someoneAllIn: bool)
    requires TypeOf(s).Success?
    ensures var r := GetPreFlopAction(s, possible, isDealer, isSmallBlind, isBigBlind, someoneAllIn);
      var d := Decide(TypeOf(s).value.0, PositionOf(isDealer, isSmallBlind, isBigBlind), s.raises,
        ActionMapOf(possible), someoneAllIn);
      (r.Success? <==> d.Some?) && (r.Success? ==> r.value.0 == d.value)
  {
  }
}
