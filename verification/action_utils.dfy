/** Choosing one of the actions the server offers, by preference. */
module ActionUtils {
  import opened Wrappers

  datatype ActionType = Call | Check | Raise | Fold | AllIn

  /** An offered action; the amount is carried along untouched. */
  datatype Action = Action(actionType: ActionType, amount: int)

  /** The offered actions keyed by type, built by putting each action of the list in turn, so a later action
      of a type replaces an earlier one. */
  function ActionMapOf(actions: seq<Action>): (m: map<ActionType, Action>)
    ensures forall t :: t in m <==> exists a :: a in actions && a.actionType == t
    ensures forall t :: t in m ==> m[t] in actions && m[t].actionType == t
  {
    if |actions| == 0 then map[]
    else
      var last := actions[|actions| - 1];
      var m := ActionMapOf(actions[..|actions| - 1]);
      assert forall a :: a in actions[..|actions| - 1] ==> a in actions;
      assert forall a :: a in actions ==> a in actions[..|actions| - 1] || a == last;
      m[last.actionType := last]
  }

  /** A later action of a type replaces an earlier one: the map holds, for each type, the last action of
      that type in the list. */
  lemma {:induction false} ActionMapLastWins(actions: seq<Action>, i: int)
    requires 0 <= i < |actions| && LastOfType(actions, i)
    ensures actions[i].actionType in ActionMapOf(actions)
    ensures ActionMapOf(actions)[actions[i].actionType] == actions[i]
  {
    var init := actions[..|actions| - 1];
    if i < |init| {
      assert init[i] == actions[i];
      assert LastOfType(init, i);
      ActionMapLastWins(init, i);
    }
  }

  /** No later action in the list has the type of the action at `i`. */
  predicate LastOfType(actions: seq<Action>, i: int)
    requires 0 <= i < |actions|
  {
    forall j :: i < j < |actions| ==> actions[j].actionType != actions[i].actionType
  }

  /** `chooseInOrderFrom`: the offered action of the first preferred type that is offered, or nothing. */
  function ChooseInOrderFrom(possible: map<ActionType, Action>, prefs: seq<ActionType>): (r: Option<Action>)
    ensures r.None? <==> forall i :: 0 <= i < |prefs| ==> prefs[i] !in possible
    ensures r.Some? ==> exists i :: (0 <= i < |prefs| && prefs[i] in possible && r.value == possible[prefs[i]] &&
      forall j :: 0 <= j < i ==> prefs[j] !in possible)
  {
    if |prefs| == 0 then None
    else if prefs[0] in possible then Some(possible[prefs[0]])
    else
      var r := ChooseInOrderFrom(possible, prefs[1..]);
      assert r.Some? ==> exists i :: (0 <= i < |prefs| && prefs[i] in possible && r.value == possible[prefs[i]] &&
        forall j :: 0 <= j < i ==> prefs[j] !in possible) by {
        if r.Some? {
          var i :| 0 <= i < |prefs[1..]| && prefs[1..][i] in possible && r.value == possible[prefs[1..][i]] &&
            forall j :: 0 <= j < i ==> prefs[1..][j] !in possible;
          assert prefs[i + 1] == prefs[1..][i];
        }
      }
      r
  }

  /** Trying one list of preferences and then another is trying the two lists joined. */
  lemma {:induction false} ChooseAppend(possible: map<ActionType, Action>, p: seq<ActionType>, q: seq<ActionType>)
    ensures ChooseInOrderFrom(possible, p + q) ==
      if ChooseInOrderFrom(possible, p).Some? then ChooseInOrderFrom(possible, p) else ChooseInOrderFrom(possible, q)
  {
    if |p| == 0 {
      assert p + q == q;
    } else {
      assert (p + q)[0] == p[0] && (p + q)[1..] == p[1..] + q;
      ChooseAppend(possible, p[1..], q);
    }
  }

  /** Two keys out of two possible ones are both of them. */
  lemma TwoOfTwo(keys: set<ActionType>)
    requires |keys| == 2 && keys <= {AllIn, Fold}
    ensures keys == {AllIn, Fold}
  {
    if AllIn !in keys {
      assert keys <= {Fold};
      assert |{Fold}| == 1;
      SubsetSize(keys, {Fold});
    } else if Fold !in keys {
      assert keys <= {AllIn};
      assert |{AllIn}| == 1;
      SubsetSize(keys, {AllIn});
    }
  }

  /** `safelyChooseInOrderFrom`, with whether any player has gone all-in passed in: check or fold when
      someone has; all-in when exactly all-in and fold are offered; otherwise the caller's preferences. */
  function SafelyChooseInOrderFrom(possible: map<ActionType, Action>, someoneAllIn: bool, prefs: seq<ActionType>)
    : (r: Option<Action>)
    ensures someoneAllIn ==> r == ChooseInOrderFrom(possible, [Check, Fold])
    ensures !someoneAllIn && possible.Keys == {AllIn, Fold} ==> r == Some(possible[AllIn])
    ensures !someoneAllIn && possible.Keys != {AllIn, Fold} ==> r == ChooseInOrderFrom(possible, prefs)
  {
    if someoneAllIn then ChooseInOrderFrom(possible, [Check, Fold])
    else if |possible| == 2 && possible.Keys <= {AllIn, Fold} then
      TwoOfTwo(possible.Keys);
      Some(possible[AllIn])
    else ChooseInOrderFrom(possible, prefs)
  }

  /** An action chosen from the map of an offered list is one of the offered actions, of the first preferred
      type that was offered. */
  lemma ChosenIsOffered(actions: seq<Action>, prefs: seq<ActionType>)
    ensures var r := ChooseInOrderFrom(ActionMapOf(actions), prefs);
      r.Some? ==> r.value in actions && exists i :: (0 <= i < |prefs| && r.value.actionType == prefs[i] &&
        forall j, a :: 0 <= j < i && a in actions ==> a.actionType != prefs[j])
  {
    var m := ActionMapOf(actions);
    var r := ChooseInOrderFrom(m, prefs);
    if r.Some? {
      var i :| 0 <= i < |prefs| && prefs[i] in m && r.value == m[prefs[i]] && forall j :: 0 <= j < i ==> prefs[j] !in m;
      assert r.value.actionType == prefs[i];
    }
  }
}
