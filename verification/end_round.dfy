/** The end of a round: the sectors may be scored again, and the game ends
    after the ninth round or as soon as a player has no ship left on the
    board. Otherwise the player order rotates (the last player becomes the
    first), every ship may move and invade again, and the next round's plan
    phase starts. */
module EndRound {
  import opened Common
  import opened Ships
  import opened Players
  import opened Hexes
  import opened Sectors
  import opened Boards
  import opened World
  import opened Game
  import Plan
  import Perform
  import EndGame

  /** The number of rounds of a game. */
  const MAX_TURNS := 9

  /** `resetSectorsForNewTurn`: no sector counts as scored any more. */
  function ResetAllScored(sectors: seq<Sector>): (r: seq<Sector>)
    ensures |r| == |sectors|
    ensures forall k :: 0 <= k < |r| ==> r[k] == sectors[k].(isScored := false)
  {
    seq(|sectors|, k requires 0 <= k < |sectors| => ResetScored(sectors[k]))
  }

  /** `areAnyPlayersEliminated`. */
  predicate AnyEliminated(table: ShipTable, players: seq<Player>)
  {
    exists i :: 0 <= i < |players| && IsEliminated(table, players[i].color)
  }

  /** The colour belongs to one of the players. */
  predicate Plays(players: seq<Player>, c: PlayerColor)
  {
    exists j :: 0 <= j < |players| && players[j].color == c
  }

  /** `resetShipsForNewTurn` of every player, in player order: every ship of
      a player may move and invade again, and nothing else changes. */
  function ResetAllShips(table: ShipTable, players: seq<Player>): (r: ShipTable)
    ensures |r| == |table|
    ensures forall i :: 0 <= i < |r| ==>
      r[i] == (if Plays(players, table[i].owner) then ResetForNewTurn(table[i]) else table[i])
    decreases |players|
  {
    if players == [] then table
    else
      var t := ResetShipsForNewTurn(table, players[0].color);
      var r := ResetAllShips(t, players[1..]);
      assert forall i :: 0 <= i < |table| ==>
        (Plays(players, table[i].owner) <==> table[i].owner == players[0].color || Plays(players[1..], table[i].owner)) by {
        forall i | 0 <= i < |table|
          ensures Plays(players, table[i].owner) <==> table[i].owner == players[0].color || Plays(players[1..], table[i].owner)
        {
          if Plays(players[1..], table[i].owner) {
            var j :| 0 <= j < |players[1..]| && players[1..][j].color == table[i].owner;
            assert players[j + 1].color == table[i].owner;
          }
          if Plays(players, table[i].owner) && table[i].owner != players[0].color {
            var j :| 0 <= j < |players| && players[j].color == table[i].owner;
            assert players[1..][j - 1].color == table[i].owner;
          }
        }
      }
      assert forall s :: ResetForNewTurn(ResetForNewTurn(s)) == ResetForNewTurn(s);
      r
  }

  /** The game with no sector marked as scored. */
  function Unmarked(g: Game): (r: Game)
    ensures r.board.sectors == ResetAllScored(g.board.sectors)
    ensures r == g.(board := g.board.(sectors := r.board.sectors))
  {
    g.(board := g.board.(sectors := ResetAllScored(g.board.sectors)))
  }

  /** The next round as the plan phase receives it: players rotated, their
      ships reset, the round counter moved on. */
  function NextRound(g: Game): (r: Game)
    ensures r.turn == g.turn + 1 && r.players == Rotate(g.players) && r.state == Planning(0)
    ensures r.table == ResetAllShips(g.table, Rotate(g.players))
    ensures r.board == g.board && r.current == g.current
  {
    var g2 := RotatePlayers(g);
    IncrementTurn(g2.(table := ResetAllShips(g2.table, g2.players))).(state := Planning(0))
  }

  /** `EndRoundState.execute`. The sectors are unmarked first. The game
      ends when the ninth round is over or a player is eliminated;
      otherwise the players rotate, their ships are reset, the round
      counter moves on and the plan phase starts. */
  function Run(g: Game): (r: Result<Outcome>)
    requires g.state.EndingRound? && EndGame.SectorsPlaced(g.board)
  {
    var g1 := Unmarked(g);
    if g1.turn == MAX_TURNS || AnyEliminated(g1.table, g1.players) then EndGame.Run(g1)
    else Plan.Run(NextRound(g1))
  }

  /** The game ends at the end of a round exactly when the ninth round is
      over or some player has no ship left on the board. */
  lemma {:induction false} EndsIffLastRoundOrEliminated(g: Game)
    requires g.state.EndingRound? && EndGame.SectorsPlaced(g.board) && Run(g).Ok?
    ensures Run(g).value.game.state.Ended? <==> g.turn == MAX_TURNS || AnyEliminated(g.table, g.players)
  {
    if !(g.turn == MAX_TURNS || AnyEliminated(g.table, g.players)) {
      var g4 := NextRound(Unmarked(g));
      assert Run(g) == Plan.Run(g4);
      if |g4.players| > 0 {
        assert Run(g).value.game.state == Planning(0);
      } else {
        assert Plan.Run(g4) == Perform.Run(Plan.StartPerforming(g4));
      }
    }
  }

  /** Rotating the players keeps who plays. */
  lemma RotatePlays(players: seq<Player>, c: PlayerColor)
    ensures Plays(players, c) <==> Plays(Rotate(players), c)
  {
    var r := Rotate(players);
    var n := |players|;
    if Plays(players, c) {
      var j :| 0 <= j < n && players[j].color == c;
      if j == n - 1 {
        assert r[0] == players[j];
      } else {
        assert r[1..][j] == players[j];
      }
    }
    if Plays(r, c) {
      var j :| 0 <= j < n && r[j].color == c;
      if j == 0 {
        assert players[n - 1] == r[j];
      } else {
        assert r[1..][j - 1] == r[j];
      }
    }
  }

  /** `o` starts the round after the one `g` ends: the round counter has
      moved on by one, the last player has become the first, no sector is
      marked as scored, the first player in the new order is asked for a
      plan, and every ship of a player may move and invade again. */
  predicate RoundStarted(g: Game, o: Outcome)
  {
    && g.players != []
    && o.game.turn == g.turn + 1
    && o.game.players == Rotate(g.players)
    && o.game.state == Planning(0)
    && o.prompt == ChooseCommands(g.players[|g.players| - 1].color)
    && (forall k :: 0 <= k < |o.game.board.sectors| ==> !o.game.board.sectors[k].isScored)
    && (forall i :: 0 <= i < |o.game.table| && i < |g.table| && Plays(g.players, g.table[i].owner) ==>
          !o.game.table[i].hasMoved && !o.game.table[i].hasInvaded)
  }

  /** The game and question the plan phase starts the next round with. */
  function NextRoundAsked(g: Game): (o: Outcome)
    requires g.players != []
  {
    var g4 := NextRound(Unmarked(g));
    Outcome(g4.(current := Some(g4.players[0].color)), ChooseCommands(g4.players[0].color))
  }

  /** A round that does not end the game hands over to the next one. */
  lemma NextRoundStarts(g: Game)
    requires g.state.EndingRound? && EndGame.SectorsPlaced(g.board) && g.players != []
    requires !(g.turn == MAX_TURNS || AnyEliminated(g.table, g.players))
    ensures Run(g).Ok?
    ensures RoundStarted(g, Run(g).value)
  {
    var g4 := NextRound(Unmarked(g));
    assert Run(g) == Plan.Run(g4);
    assert Run(g) == Ok(NextRoundAsked(g));
    NextRoundAskedStarts(g);
  }

  /** The plan phase of the next round starts as `RoundStarted` says. */
  lemma NextRoundAskedStarts(g: Game)
    requires g.players != []
    ensures RoundStarted(g, NextRoundAsked(g))
  {
    var o := NextRoundAsked(g);
    assert o.game.table == ResetAllShips(g.table, Rotate(g.players));
    forall c: PlayerColor {
      RotatePlays(g.players, c);
    }
  }

  /** Unmarking the sectors changes nothing else about the board. */
  lemma ResetScoredKeepsBoard(b: Board)
    requires World.Layout(b) && SectorsIndexed(b) && EndGame.SectorsPlaced(b)
    ensures var b' := b.(sectors := ResetAllScored(b.sectors));
      World.Layout(b') && SectorsIndexed(b') && EndGame.SectorsPlaced(b')
  {
    var b' := b.(sectors := ResetAllScored(b.sectors));
    assert forall k :: 0 <= k < |b.sectors| ==>
      b'.sectors[k].systemHexes == b.sectors[k].systemHexes && b'.sectors[k].isCentral == b.sectors[k].isCentral;
  }

  /** Resetting the round flags moves no ship and changes no owner, so the
      placement rule and the roster hold of the new table. */
  lemma ResetShipsKeepsPlacement(cells: map<Coord, Hex>, table: ShipTable, players: seq<Player>)
    requires Placement(cells, table) && Roster(players, table)
    ensures Placement(cells, ResetAllShips(table, players))
    ensures Roster(players, ResetAllShips(table, players))
  {
    var t := ResetAllShips(table, players);
    assert SameOwners(table, t);
    TableChangePlacement(cells, table, t);
    RosterSameOwners(players, table, t);
  }

  /** The end of a round keeps the rules of the board: the layout and the
      placement of the ships (resetting flags moves no ship), the sector
      lookups, and the roster (rotating only reorders the players). */
  lemma {:induction false} NextRoundConsistent(g: Game)
    requires g.state.EndingRound? && EndGame.SectorsPlaced(g.board) && g.players != []
    requires !(g.turn == MAX_TURNS || AnyEliminated(g.table, g.players))
    requires Consistent(g.board, g.table) && Roster(g.players, g.table) && SectorsIndexed(g.board)
    ensures Run(g).Ok?
    ensures var o := Run(g).value.game;
      Consistent(o.board, o.table) && Roster(o.players, o.table) && SectorsIndexed(o.board)
      && EndGame.SectorsPlaced(o.board)
  {
    var g4 := NextRound(Unmarked(g));
    assert Run(g) == Plan.Run(g4);
    assert Run(g).value.game == g4.(current := Some(g4.players[0].color));
    ResetScoredKeepsBoard(g.board);
    RotateKeepsRoster(g.players, g.table);
    ResetShipsKeepsPlacement(g.board.cells, g.table, Rotate(g.players));
  }

  /** A game that starts at round 1 never goes past the last round: a round
      that does not end the game leaves a round counter of at most 9. */
  lemma {:induction false} TurnStaysInRange(g: Game)
    requires g.state.EndingRound? && EndGame.SectorsPlaced(g.board) && 1 <= g.turn <= MAX_TURNS
    requires Run(g).Ok? && !Run(g).value.game.state.Ended?
    ensures 2 <= Run(g).value.game.turn <= MAX_TURNS
  {
    EndsIffLastRoundOrEliminated(g);
    var g4 := NextRound(Unmarked(g));
    assert Run(g) == Plan.Run(g4);
    if |g4.players| == 0 {
      assert Plan.Run(g4) == Perform.Run(Plan.StartPerforming(g4));
    }
  }
}
