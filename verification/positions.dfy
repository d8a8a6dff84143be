/** The table position of the bot by number of players and seat counted from the small blind. */
module Positions {
  import opened Wrappers
  import opened PlayState

  datatype Position = Early | Middle | Late

  /** Early before middle before late. */
  function Lateness(p: Position): (i: nat)
    ensures i <= 2
  {
    match p
    case Early => 0
    case Middle => 1
    case Late => 2
  }

  /** `POSITIONS`: one row per number of players, none for fewer than four. */
  const Table: seq<seq<Position>> := [
    [],
    [],
    [],
    [],
    [Early, Early, Early, Late],
    [Early, Early, Early, Late, Late],
    [Early, Early, Early, Middle, Late, Late],
    [Early, Early, Early, Middle, Late, Late, Late],
    [Early, Early, Early, Middle, Middle, Late, Late, Late],
    [Early, Early, Early, Early, Middle, Middle, Late, Late, Late],
    [Early, Early, Early, Early, Middle, Middle, Middle, Late, Late, Late],
    [Early, Early, Early, Early, Middle, Middle, Middle, Middle, Late, Late, Late]
  ]

  /** `indexOf` on the names: the first seat holding `name`, or -1. */
  function IndexOfName(players: seq<GamePlayer>, name: string): (k: int)
    ensures -1 <= k < |players|
    ensures k >= 0 ==> players[k].name == name && forall j :: 0 <= j < k ==> players[j].name != name
    ensures k == -1 <==> forall j :: 0 <= j < |players| ==> players[j].name != name
  {
    if |players| == 0 then -1
    else if players[0].name == name then 0
    else
      var k := IndexOfName(players[1..], name);
      if k == -1 then -1 else k + 1
  }

  /** Each row is as long as its number of players, starts with three early seats, ends late, and never goes
      back from late to middle or from middle to early. */
  lemma TableShape(n: int)
    requires 4 <= n <= 11
    ensures |Table[n]| == n
    ensures Table[n][0] == Early && Table[n][1] == Early && Table[n][2] == Early && Table[n][n - 1] == Late
    ensures forall i, j :: 0 <= i <= j < n ==> Lateness(Table[n][i]) <= Lateness(Table[n][j])
  {
  }

  /** `getPosition`: the entry of the table for the number of players and the seat of the bot's name in
      position order; reading outside the table fails. */
  function GetPosition(numberOfPlayers: int, inPositionOrder: seq<GamePlayer>, name: string): (r: Result<Position>)
    ensures r.Success? <==> 4 <= numberOfPlayers <= 11 && 0 <= IndexOfName(inPositionOrder, name) < numberOfPlayers
    ensures r.Failure? ==> r.error == IndexOutOfBounds
    ensures r.Success? ==> r.value == Table[numberOfPlayers][IndexOfName(inPositionOrder, name)]
  {
    var k := IndexOfName(inPositionOrder, name);
    if numberOfPlayers < 0 || numberOfPlayers >= |Table| then Failure(IndexOutOfBounds)
    else if k < 0 || k >= |Table[numberOfPlayers]| then Failure(IndexOutOfBounds)
    else Success(Table[numberOfPlayers][k])
  }

  /** The first three seats after the small blind are early and the last one is late, whatever the number of
      players the table covers. */
  lemma FirstSeatsEarlyLastLate(numberOfPlayers: int, inPositionOrder: seq<GamePlayer>, name: string)
    requires 4 <= numberOfPlayers <= 11
    requires 0 <= IndexOfName(inPositionOrder, name) < numberOfPlayers
    ensures IndexOfName(inPositionOrder, name) < 3 ==> GetPosition(numberOfPlayers, inPositionOrder, name) == Success(Early)
    ensures IndexOfName(inPositionOrder, name) == numberOfPlayers - 1 ==>
      GetPosition(numberOfPlayers, inPositionOrder, name) == Success(Late)
  {
    TableShape(numberOfPlayers);
  }

  /** The unit test: six players named alike, then the bot, seven players in all, give a late position. */
  lemma SeventhOfSevenIsLate()
    ensures var p := (chips: int) => GamePlayer("Player 6", chips);
      GetPosition(7, [p(10), p(11), p(12), p(13), p(14), p(15), GamePlayer("Perforator", 100)], "Perforator")
        == Success(Late)
  {
    var p := (chips: int) => GamePlayer("Player 6", chips);
    var players := [p(10), p(11), p(12), p(13), p(14), p(15), GamePlayer("Perforator", 100)];
    assert players[6].name == "Perforator";
    assert forall j :: 0 <= j < 6 ==> players[j].name == "Player 6" != "Perforator";
    assert IndexOfName(players, "Perforator") == 6;
  }
}
