/** The seating order of the players as the bot sees it: starting from the small blind. */
module PlayState {

  /** A player at the table, known by name. */
  datatype GamePlayer = GamePlayer(name: string, chipCount: int)

  /** Where the first player named `sbName` sits, or the number of players when nobody is. */
  function SmallBlindIndex(players: seq<GamePlayer>, sbName: string): (k: nat)
    ensures k <= |players|
    ensures forall j :: 0 <= j < k ==> players[j].name != sbName
    ensures k < |players| ==> players[k].name == sbName
  {
    if |players| == 0 then 0
    else if players[0].name == sbName then 0
    else 1 + SmallBlindIndex(players[1..], sbName)
  }

  /** `getPlayersInPositionOrder`, with the small blind's name passed in: the players from the small blind
      to the end, then the ones before it. */
  method PlayersInPositionOrder(players: seq<GamePlayer>, sbName: string) returns (r: seq<GamePlayer>)
    ensures r == players[SmallBlindIndex(players, sbName)..] + players[..SmallBlindIndex(players, sbName)]
  {
    var result: seq<GamePlayer> := [];
    var tail: seq<GamePlayer> := [];
    var located := false;
    ghost var k := SmallBlindIndex(players, sbName);
    var i := 0;
    while i < |players|
      invariant 0 <= i <= |players|
      invariant located <==> k < i
      invariant !located ==> result == [] && tail == players[..i]
      invariant located ==> result == players[k..i] && tail == players[..k]
    {
      if players[i].name == sbName || located {
        located := true;
        result := result + [players[i]];
      } else {
        tail := tail + [players[i]];
      }
      i := i + 1;
    }
    if located {
      assert result == players[k..] && tail == players[..k];
    } else {
      assert k == |players| && players[k..] == [] && tail == players[..k];
    }
    r := result + tail;
  }

  /** The seating order as a function, for reasoning about it. */
  function PositionOrder(players: seq<GamePlayer>, sbName: string): seq<GamePlayer> {
    players[SmallBlindIndex(players, sbName)..] + players[..SmallBlindIndex(players, sbName)]
  }

  /** Every player appears as often as before, and the small blind, when present, comes first. */
  lemma PositionOrderIsRotation(players: seq<GamePlayer>, sbName: string)
    ensures |PositionOrder(players, sbName)| == |players|
    ensures multiset(PositionOrder(players, sbName)) == multiset(players)
    ensures (exists j :: 0 <= j < |players| && players[j].name == sbName) ==>
      PositionOrder(players, sbName)[0].name == sbName
  {
    var k := SmallBlindIndex(players, sbName);
    assert players == players[..k] + players[k..];
  }

  /** The order is unchanged when the small blind already sits first or nobody has the name. */
  lemma PositionOrderIdentity(players: seq<GamePlayer>, sbName: string)
    requires (|players| > 0 && players[0].name == sbName) || forall j :: 0 <= j < |players| ==> players[j].name != sbName
    ensures PositionOrder(players, sbName) == players
  {
  }

  /** The documented example: CO, D, SB, BB, UTG, HJ becomes SB, BB, UTG, HJ, CO, D. */
  lemma PositionOrderExample(chips: int)
    ensures var p := (n: string) => GamePlayer(n, chips);
      PositionOrder([p("CO"), p("D"), p("SB"), p("BB"), p("UTG"), p("HJ")], "SB") ==
        [p("SB"), p("BB"), p("UTG"), p("HJ"), p("CO"), p("D")]
  {
    var p := (n: string) => GamePlayer(n, chips);
    var players := [p("CO"), p("D"), p("SB"), p("BB"), p("UTG"), p("HJ")];
    assert players[0].name != "SB" && players[1].name != "SB" && players[2].name == "SB";
    assert SmallBlindIndex(players, "SB") == 2;
  }
}
