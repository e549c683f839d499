/** What the perform phase keeps true of the game: the board is consistent
    with the ship table, the roster is sound, the tables are those of the
    players' plans, and the command under way keeps its own invariant (an
    Expand stays within its quota and belongs to a player of the game, an
    Explore's fleet is in transit, an Exterminate's invasion is sound). Running
    the phase and answering any decision keep all of it. */
module PerformInvariant {
  import opened Common
  import opened Ships
  import opened Hexes
  import opened Boards
  import opened World
  import opened Players
  import opened CommandData
  import opened Sorting
  import opened Game
  import opened Perform
  import opened PerformDecisions
  import ExpandCommand
  import ExploreCommand
  import ExterminateCommand

  ghost predicate CommandSound(b: Board, table: ShipTable, n: nat, c: Command)
  {
    match c
    case ExpandCmd(d) => ExpandCommand.QuotaRespected(table, d) && ColorIndex(d.player) < n
    case ExploreCmd(d) => ExploreCommand.Transit(b, table, d)
    case ExterminateCmd(d) => ExterminateCommand.Invasion(b, table, d)
  }

  /** Tables, once computed, are those of the players' plans. */
  predicate TablesSound(players: seq<Player>, p: Performance)
  {
    p.tables.Some? ==> PlansReadable(players) && p.tables.value == ComputeTables(players).value
  }

  /** The invariant between two commands. */
  ghost predicate Between(g: Game)
  {
    && Consistent(g.board, g.table)
    && Roster(g.players, g.table)
    && (g.state.Performing? ==> TablesSound(g.players, g.state.perform))
  }

  /** The invariant, including the command under way. */
  ghost predicate Sane(g: Game)
  {
    && Between(g)
    && (g.state.Performing? && g.state.perform.command.Some? ==>
          CommandSound(g.board, g.table, |g.players|, g.state.perform.command.value))
  }

  // ---------------------------------------------------------------------------
  // Starting a command

  /** Every player the order lists is a player of the game. */
  lemma ActorIsPlayer(players: seq<Player>, phase: int, i: int)
    requires 0 <= i < |SortBy(players, CommandKey(phase))|
    ensures SortBy(players, CommandKey(phase))[i] in players
  {
    var s := SortBy(players, CommandKey(phase));
    assert s[i] in multiset(s);
  }

  /** The player who acts at position `p` is a player of the game, and the
      efficiency of the command it planned counts players. */
  lemma ActorFacts(players: seq<Player>, p: Performance)
    requires PositionFits(p, |players|) && TablesSound(players, p) && p.tables.Some?
    requires 0 <= p.phase < NUM_PERFORM_PHASES && 0 <= p.index < |players|
    ensures p.tables.value.order[p.phase][p.index] in players
    ensures forall k :: 0 <= k < NUM_COMMANDS ==> p.tables.value.efficiencies[p.phase][k] <= |players|
  {
    ActorIsPlayer(players, p.phase, p.index);
  }

  /** The efficiency the acting player's command starts with counts that
      player among those who planned the command, so it is at least 1. */
  lemma ActorCounted(players: seq<Player>, p: Performance)
    requires PositionFits(p, |players|) && TablesSound(players, p) && p.tables.Some?
    requires 0 <= p.phase < NUM_PERFORM_PHASES && 0 <= p.index < |players|
    ensures var actor := p.tables.value.order[p.phase][p.index];
      var cmd := CommandForPhase(actor, p.phase);
      cmd.Ok? && 1 <= cmd.value <= NUM_COMMANDS ==>
        1 <= p.tables.value.efficiencies[p.phase][cmd.value - 1] <= |players|
  {
    ActorFacts(players, p);
    var actor := p.tables.value.order[p.phase][p.index];
    var cmd := CommandForPhase(actor, p.phase);
    if cmd.Ok? && 1 <= cmd.value <= NUM_COMMANDS {
      assert actor in Filter(players, Planned(p.phase, cmd.value));
    }
  }

  /** A command started by a player of the game with an efficiency that
      counts players is sound: an Expand's quota never exceeds the reserve. */
  lemma StartCommandSound(b: Board, table: ShipTable, n: nat, c: PlayerColor, cmd: int, efficiency: int)
    requires Placement(b.cells, table) && ColorIndex(c) < n
    requires 1 <= cmd <= NUM_COMMANDS && efficiency <= 4
    ensures CommandSound(b, table, n, StartCommand(table, c, cmd, efficiency))
  {
    if cmd == 2 {
      ExploreCommand.StartInTransit(b, table, c, efficiency);
    }
  }

  /** A command started from sound tables is sound. */
  lemma {:induction false} StartSound(g: Game, p: Performance)
    requires Placement(g.board.cells, g.table) && Roster(g.players, g.table)
    requires PositionFits(p, |g.players|) && TablesSound(g.players, p)
    requires Initiate(g, p).Ok?
    ensures CommandSound(g.board, g.table, |g.players|, Initiate(g, p).value.1)
  {
    ActorFacts(g.players, p);
    var actor := p.tables.value.order[p.phase][p.index];
    var i :| 0 <= i < |g.players| && g.players[i] == actor;
    var cmd := CommandForPhase(actor, p.phase).value;
    StartCommandSound(g.board, g.table, |g.players|, actor.color, cmd, p.tables.value.efficiencies[p.phase][cmd - 1]);
  }

  // ---------------------------------------------------------------------------
  // Running the phase

  /** Running a sound command keeps the board consistent and the command
      sound; the table is left as it is. */
  lemma ExecuteSound(b: Board, table: ShipTable, n: nat, c: Command)
    requires Consistent(b, table) && CommandSound(b, table, n, c) && Runnable(b, table, c)
    ensures var x := ExecuteCommand(b, table, c);
      x.1 == table && Consistent(x.0, x.1) && CommandSound(x.0, x.1, n, x.2)
  {
    match c
    case ExpandCmd(d) =>
    case ExploreCmd(d) =>
      ExploreCommand.ExecuteKeepsTransit(b, table, d);
      ExploreCommand.DoneConsistent(b, table, ExploreCommand.Execute(b, table, d));
    case ExterminateCmd(d) =>
      ExterminateCommand.ExecuteKeepsInvasion(b, table, d);
  }

  /** Moving to another state with sound tables keeps the invariant
      between commands. */
  lemma {:induction false} BetweenState(g: Game, s: State)
    requires Between(g) && (s.Performing? ==> TablesSound(g.players, s.perform))
    ensures Between(g.(state := s))
  {
  }

  /** `Run` keeps the invariant. */
  lemma {:induction false} RunSane(g: Game)
    requires g.state.Performing? && g.state.perform.command.None?
    requires PositionFits(g.state.perform, |g.players|) && Between(g)
    ensures Run(g).Ok? ==> Sane(Run(g).value.game)
    decreases PhasesLeft(g.state.perform), |g.players| - g.state.perform.index, 3
  {
    var p := Normalize(g.state.perform, |g.players|);
    if p.phase == NUM_PERFORM_PHASES {
      assert Run(g).value.game == g.(state := Exploiting);
    } else if Prepare(g.players, p).Ok? {
      var p1 := Prepare(g.players, p).value;
      if Initiate(g, p1).Ok? {
        var (g1, cmd) := Initiate(g, p1).value;
        var g2 := Launch(g1, p1, cmd);
        StartedSane(g, p1);
        assert Run(g) == Resume(g2);
        ResumeSane(g2);
      }
    }
  }

  /** The game once the next command has started keeps the invariant. */
  lemma {:induction false} StartedSane(g: Game, p: Performance)
    requires Consistent(g.board, g.table) && Roster(g.players, g.table)
    requires PositionFits(p, |g.players|) && p.command.None? && TablesSound(g.players, p)
    requires Initiate(g, p).Ok?
    ensures var (g1, cmd) := Initiate(g, p).value;
      var g2 := Launch(g1, p, cmd);
      Sane(g2) && Waiting(g2)
  {
    StartSound(g, p);
  }

  /** `Resume` keeps the invariant. */
  lemma {:induction false} ResumeSane(g: Game)
    requires Waiting(g) && Sane(g)
    ensures Resume(g).Ok? ==> Sane(Resume(g).value.game)
    decreases PhasesLeft(g.state.perform), |g.players| - g.state.perform.index, 2
  {
    var p := g.state.perform;
    var x := ExecuteCommand(g.board, g.table, p.command.value);
    ExecuteSound(g.board, g.table, |g.players|, p.command.value);
    var g' := Carry(g, x.0, x.1, x.2);
    if x.3.None? {
      NextCommandSane(g');
    }
  }

  /** `NextCommand` keeps the invariant: it needs none of the command
      that is dropped. */
  lemma {:induction false} NextCommandSane(g: Game)
    requires g.state.Performing? && PositionFits(g.state.perform, |g.players|)
    requires g.state.perform.index < |g.players| && Between(g)
    ensures NextCommand(g).Ok? ==> Sane(NextCommand(g).value.game)
    decreases PhasesLeft(g.state.perform), |g.players| - g.state.perform.index, 0
  {
    var g' := Advance(g);
    BetweenState(g, g'.state);
    RunSane(g');
  }

  // ---------------------------------------------------------------------------
  // Answering a decision

  /** Going on from a consistent board with a sound command keeps the
      invariant. */
  lemma {:induction false} ContinueSane(g: Game, b: Board, t: ShipTable, c: Command, prompt: Option<Prompt>)
    requires Waiting(g) && Sane(g) && SameLayout(g.board, b)
    requires prompt.Some? ==>
      Runnable(b, t, c) && Asks(b, c, prompt.value) && CommandPlayer(c) == CommandPlayer(CommandUnderWay(g))
    requires Consistent(b, t) && SameOwners(g.table, t) && CommandSound(b, t, |g.players|, c)
    ensures Continue(g, b, t, c, prompt).Ok? ==> Sane(Continue(g, b, t, c, prompt).value.game)
  {
    RosterSameOwners(g.players, g.table, t);
    if prompt.None? {
      NextCommandSane(g.(board := b, table := t));
    }
  }

  /** `Expand.addShips` keeps the invariant: the quota never runs past the
      reserve, and the ships deployed come out of the player's own pool. */
  lemma {:induction false} ExpandAddShipsSane(g: Game, c: Coord, n: int)
    requires Waiting(g) && Sane(g)
    ensures ExpandAddShips(g, c, n).Ok? && ExpandAddShips(g, c, n).value.Some? ==>
      Sane(ExpandAddShips(g, c, n).value.value.game)
  {
    if CommandUnderWay(g).ExpandCmd? && ExpandCommand.CanExpandFleet(g.board, CommandUnderWay(g).expand, c, n) {
      var d := CommandUnderWay(g).expand;
      ExpandedSane(g, d, c, n);
      var (b, t, d') := ExpandCommand.AddShips(g.board, g.table, d, c, n).value;
      ResumeSane(Carry(g, b, t, ExpandCmd(d')));
    }
  }

  /** The game right after ships are added, before the command runs on. */
  lemma {:induction false} ExpandedSane(g: Game, d: ExpandData, c: Coord, n: int)
    requires Waiting(g) && Sane(g) && CommandUnderWay(g) == ExpandCmd(d)
    ensures ExpandCommand.AddShips(g.board, g.table, d, c, n).Ok?
    ensures var (b, t, d') := ExpandCommand.AddShips(g.board, g.table, d, c, n).value;
      var g' := Carry(g, b, t, ExpandCmd(d'));
      Sane(g') && Waiting(g')
  {
    ExpandCommand.QuotaKept(g.board, g.table, d, c, n);
    ExpandCommand.AddShipsConsistent(g.board, g.table, d, c, n, |g.players|);
    var (b, t, d') := ExpandCommand.AddShips(g.board, g.table, d, c, n).value;
    RosterSameOwners(g.players, g.table, t);
    var p := g.state.perform;
    var g' := Carry(g, b, t, ExpandCmd(d'));
    assert d'.player == d.player;
    assert CommandSound(b, t, |g.players|, ExpandCmd(d'));
    assert Between(g') by {
      assert TablesSound(g.players, p);
    }
    assert Awaiting(g');
  }

  /** `Expand.finishCommand` keeps the invariant. */
  lemma {:induction false} ExpandFinishSane(g: Game)
    requires Waiting(g) && Sane(g)
    ensures ExpandFinish(g).Ok? ==> Sane(ExpandFinish(g).value.game)
  {
    if CommandUnderWay(g).ExpandCmd? {
      NextCommandSane(g);
    }
  }

  /** Going on after an Explore decision that kept the fleet in transit
      keeps the invariant. */
  lemma {:induction false} ExploreContinueSane(g: Game, s: ExploreCommand.Step)
    requires Waiting(g) && Sane(g) && CommandUnderWay(g).ExploreCmd?
    requires SameLayout(g.board, s.board) && s.data.player == CommandUnderWay(g).explore.player
    requires ExploreCommand.Transit(s.board, s.table, s.data) && SameOwners(g.table, s.table)
    ensures ExploreContinue(g, s).Ok? ==> Sane(ExploreContinue(g, s).value.game)
  {
    ExploreCommand.DoneConsistent(g.board, g.table, s);
    var pl := CommandUnderWay(g).explore.player;
    ContinueSane(g, s.board, s.table, ExploreCmd(s.data), if s.prompt.Done? then None else Some(ExplorePrompt(pl, s.prompt)));
  }

  /** Starting a movement keeps the invariant. */
  lemma {:induction false} ExploreStartSane(g: Game, c: Coord)
    requires Waiting(g) && Sane(g)
    ensures ExploreStart(g, c).Ok? && ExploreStart(g, c).value.Some? ==> Sane(ExploreStart(g, c).value.value.game)
  {
    if CommandUnderWay(g).ExploreCmd? {
      var d := CommandUnderWay(g).explore;
      var s := ExploreCommand.StartExplore(g.board, g.table, d, c);
      ExploreCommand.DecisionsKeepTransit(g.board, g.table, d, c, 0);
      if s.Some? {
        ExploreContinueSane(g, s.value);
        assert ExploreContinue(g, s.value).Ok? ==> ExploreStart(g, c) == Ok(Some(ExploreContinue(g, s.value).value));
      }
    }
  }

  /** Stepping on keeps the invariant. */
  lemma {:induction false} ExploreNextSane(g: Game, c: Coord, adjustment: int)
    requires Waiting(g) && Sane(g)
    ensures ExploreNext(g, c, adjustment).Ok? && ExploreNext(g, c, adjustment).value.Some? ==>
      Sane(ExploreNext(g, c, adjustment).value.value.game)
  {
    if CommandUnderWay(g).ExploreCmd? {
      var d := CommandUnderWay(g).explore;
      var next := ExploreCommand.ExploreNextDecision(g.board, g.table, d, c, adjustment);
      ExploreCommand.DecisionsKeepTransit(g.board, g.table, d, c, adjustment);
      if next.Ok? && next.value.Some? {
        var s := next.value.value;
        ExploreContinueSane(g, s);
        assert ExploreContinue(g, s).Ok? ==> ExploreNext(g, c, adjustment) == Ok(Some(ExploreContinue(g, s).value));
      }
    }
  }

  /** Ending the movement or the command keeps the invariant. */
  lemma {:induction false} ExploreEndsSane(g: Game)
    requires Waiting(g) && Sane(g)
    ensures ExploreFinishMovement(g).Ok? ==> Sane(ExploreFinishMovement(g).value.game)
    ensures ExploreFinish(g).Ok? ==> Sane(ExploreFinish(g).value.game)
  {
    if CommandUnderWay(g).ExploreCmd? {
      var d := CommandUnderWay(g).explore;
      ExploreCommand.DecisionsKeepTransit(g.board, g.table, d, Coord(0, 0), 0);
      ExploreContinueSane(g, ExploreCommand.FinishCurrentMovement(g.board, g.table, d));
      ExploreContinueSane(g, ExploreCommand.FinishCommand(g.board, g.table, d));
    }
  }

  /** Going on after an Exterminate decision that kept the invasion sound
      keeps the invariant. */
  lemma {:induction false} ExterminateContinueSane(g: Game, s: ExterminateCommand.Step)
    requires Waiting(g) && Sane(g) && CommandUnderWay(g).ExterminateCmd?
    requires SameLayout(g.board, s.board) && s.data.player == CommandUnderWay(g).exterminate.player
    requires ExterminateCommand.Invasion(s.board, s.table, s.data) && SameOwners(g.table, s.table)
    ensures ExterminateContinue(g, s).Ok? ==> Sane(ExterminateContinue(g, s).value.game)
  {
    ExterminateCommand.InvasionConsistent(g.board, g.table, s);
    var pl := CommandUnderWay(g).exterminate.player;
    ContinueSane(g, s.board, s.table, ExterminateCmd(s.data),
                 if s.prompt.Done? then None else Some(ExterminatePrompt(pl, s.prompt)));
  }

  /** Choosing a target and committing ships keep the invariant. */
  lemma {:induction false} ExterminateMovesSane(g: Game, c: Coord, n: int)
    requires Waiting(g) && Sane(g)
    ensures ExterminateStart(g, c).Ok? && ExterminateStart(g, c).value.Some? ==>
      Sane(ExterminateStart(g, c).value.value.game)
    ensures ExterminateAddShips(g, c, n).Ok? && ExterminateAddShips(g, c, n).value.Some? ==>
      Sane(ExterminateAddShips(g, c, n).value.value.game)
  {
    if CommandUnderWay(g).ExterminateCmd? {
      var d := CommandUnderWay(g).exterminate;
      ExterminateCommand.TargetDecisionsKeepInvasion(g.board, g.table, d, c);
      ExterminateCommand.ShipsDecisionKeepsInvasion(g.board, g.table, d, c, n);
      if ExterminateCommand.StartInvadingHex(g.board, g.table, d, c).Some? {
        ExterminateContinueSane(g, ExterminateCommand.StartInvadingHex(g.board, g.table, d, c).value);
      }
      var add := ExterminateCommand.AddShipsInvadingHex(g.board, g.table, d, c, n);
      if add.Ok? && add.value.Some? {
        ExterminateContinueSane(g, add.value.value);
      }
    }
  }

  /** Ending the invasion or the command keeps the invariant. */
  lemma {:induction false} ExterminateEndsSane(g: Game)
    requires Waiting(g) && Sane(g)
    ensures ExterminateFinishInvasion(g).Ok? ==> Sane(ExterminateFinishInvasion(g).value.game)
    ensures ExterminateFinish(g).Ok? ==> Sane(ExterminateFinish(g).value.game)
  {
    if CommandUnderWay(g).ExterminateCmd? {
      var d := CommandUnderWay(g).exterminate;
      ExterminateCommand.TargetDecisionsKeepInvasion(g.board, g.table, d, Coord(0, 0));
      ExterminateContinueSane(g, ExterminateCommand.FinishCurrentInvasion(g.board, g.table, d));
      ExterminateContinueSane(g, ExterminateCommand.FinishCommand(g.board, g.table, d));
    }
  }
}
