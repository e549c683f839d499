/** The end of the game: every sector is scored once more, at twice its
    value, and the player with the highest score wins; ties go to the
    player who comes first in the player order. Once a winner is known,
    running the state again only announces it again. */
module EndGame {
  import opened Common
  import opened Hexes
  import opened Sectors
  import opened Boards
  import opened Players
  import opened Game

  /** The factor of the end-of-game scoring. */
  const END_MULTIPLIER := 2

  /** Every sector's systems are hexes of the board. */
  predicate SectorsPlaced(b: Board)
  {
    forall k :: 0 <= k < |b.sectors| ==> Placed(b.sectors[k].systemHexes, b.cells)
  }

  /** The levels of the systems a colour controls, over all the sectors. */
  function TotalPoints(sectors: seq<Sector>, cells: map<Coord, Hex>, c: PlayerColor): int
    requires forall k :: 0 <= k < |sectors| ==> Placed(sectors[k].systemHexes, cells)
  {
    if sectors == [] then 0
    else Points(sectors[0].systemHexes, cells, c) + TotalPoints(sectors[1..], cells, c)
  }

  /** `scoreAllSectorsEndOfGame`: the sectors scored one after the other,
      each at the end-of-game factor. Every player gains twice the levels
      of all the systems it controls, and nothing else about it changes;
      the sectors themselves are not marked as scored. */
  function ScoreAll(sectors: seq<Sector>, cells: map<Coord, Hex>, players: seq<Player>): (r: seq<Player>)
    requires forall k :: 0 <= k < |sectors| ==> Placed(sectors[k].systemHexes, cells)
    ensures |r| == |players|
    ensures forall i :: 0 <= i < |r| ==>
      r[i] == AddToScore(players[i], END_MULTIPLIER * TotalPoints(sectors, cells, players[i].color))
    decreases |sectors|
  {
    if sectors == [] then
      assert forall i :: 0 <= i < |players| ==> AddToScore(players[i], 0) == players[i];
      players
    else
      var scored := ScoreSector(sectors[0], cells, players, true).1;
      var r := ScoreAll(sectors[1..], cells, scored);
      assert forall i :: 0 <= i < |r| ==> scored[i].color == players[i].color;
      r
  }

  /** `determinePlayerWithHighestScore`: the position of the player with
      the highest score, reduced from the front so that a tie keeps the
      earlier player; with no player there is no winner. */
  function HighestScorer(players: seq<Player>): (r: Result<nat>)
    ensures r.Err? <==> players == []
    ensures r.Err? ==> r.error == NoPlayers
    ensures r.Ok? ==> r.value < |players|
    ensures r.Ok? ==> forall i :: 0 <= i < |players| ==> players[i].score <= players[r.value].score
    ensures r.Ok? ==> forall i :: 0 <= i < r.value ==> players[i].score < players[r.value].score
  {
    if players == [] then Err(NoPlayers) else Ok(FirstMax(players))
  }

  /** The reduction behind `Stream.max`: the best of all but the last
      player, kept unless the last has a strictly higher score. */
  function FirstMax(players: seq<Player>): (r: nat)
    requires players != []
    ensures r < |players|
    ensures forall i :: 0 <= i < |players| ==> players[i].score <= players[r].score
    ensures forall i :: 0 <= i < r ==> players[i].score < players[r].score
    decreases |players|
  {
    var last := |players| - 1;
    if last == 0 then 0
    else
      var prefix := players[..last];
      var best := FirstMax(prefix);
      assert forall i :: 0 <= i < last ==> prefix[i] == players[i];
      if players[best].score >= players[last].score then best else last
  }

  /** `EndGameState.execute`: the first time, every sector is scored at the
      end-of-game factor and the highest scorer becomes the winner; a game
      already over only announces its winner again. */
  function Run(g: Game): (r: Result<Outcome>)
    requires SectorsPlaced(g.board)
    ensures g.state.Ended? ==> r == Ok(Outcome(g, GameOver(g.state.winner)))
    ensures !g.state.Ended? ==> (r.Err? <==> g.players == [])
    ensures r.Err? ==> r.error == NoPlayers
    ensures r.Ok? ==> r.value.game.state.Ended? && r.value.prompt == GameOver(r.value.game.state.winner)
    ensures r.Ok? ==> r.value.game == g.(players := r.value.game.players, state := r.value.game.state)
  {
    if g.state.Ended? then Ok(Outcome(g, GameOver(g.state.winner)))
    else
      var scored := ScoreAll(g.board.sectors, g.board.cells, g.players);
      match HighestScorer(scored)
      case Err(e) => Err(e)
      case Ok(i) =>
        var w := scored[i].color;
        Ok(Outcome(g.(players := scored, state := Ended(w)), GameOver(w)))
  }

  /** The winner is a player whose final score, with the doubled sector
      points added, is the highest; every player before it in the order
      has a strictly lower one. Every player's final score is its score
      plus twice the levels it controls. */
  lemma {:induction false} WinnerHasHighestScore(g: Game)
    requires SectorsPlaced(g.board) && !g.state.Ended? && Run(g).Ok?
    ensures var o := Run(g).value.game;
      && |o.players| == |g.players|
      && (forall i :: 0 <= i < |g.players| ==>
            o.players[i].score == g.players[i].score + END_MULTIPLIER * TotalPoints(g.board.sectors, g.board.cells, g.players[i].color))
      && exists w :: 0 <= w < |o.players| && o.players[w].color == o.state.winner
           && (forall i :: 0 <= i < |o.players| ==> o.players[i].score <= o.players[w].score)
           && (forall i :: 0 <= i < w ==> o.players[i].score < o.players[w].score)
  {
    var scored := ScoreAll(g.board.sectors, g.board.cells, g.players);
    var w := HighestScorer(scored).value;
    assert Run(g).value.game.players == scored;
    assert Run(g).value.game.state.winner == scored[w].color;
  }

  /** Announcing is idempotent: running the state again after the winner is
      known changes nothing and announces the same winner. */
  lemma {:induction false} RunAgainAnnouncesSameWinner(g: Game)
    requires SectorsPlaced(g.board) && Run(g).Ok?
    ensures SectorsPlaced(Run(g).value.game.board)
    ensures Run(Run(g).value.game) == Run(g)
  {
  }

  /** The points of all the sectors are shared among the colours: the three
      colours' totals add up to the levels of all the occupied systems. */
  lemma {:induction false} TotalPointsPartition(sectors: seq<Sector>, cells: map<Coord, Hex>)
    requires forall k :: 0 <= k < |sectors| ==> Placed(sectors[k].systemHexes, cells)
    ensures TotalPoints(sectors, cells, Blue) + TotalPoints(sectors, cells, Green) + TotalPoints(sectors, cells, Red)
         == TotalOccupiedLevels(sectors, cells)
    decreases |sectors|
  {
    if sectors != [] {
      PointsPartition(sectors[0].systemHexes, cells);
      TotalPointsPartition(sectors[1..], cells);
    }
  }

  /** The levels of every occupied system, over all the sectors. */
  function TotalOccupiedLevels(sectors: seq<Sector>, cells: map<Coord, Hex>): int
    requires forall k :: 0 <= k < |sectors| ==> Placed(sectors[k].systemHexes, cells)
  {
    if sectors == [] then 0
    else OccupiedLevels(sectors[0].systemHexes, cells) + TotalOccupiedLevels(sectors[1..], cells)
  }
}
