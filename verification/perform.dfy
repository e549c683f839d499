/** The perform phase: three phases in which every player carries out the
    command planned for that phase. At its very start the phase computes,
    for each phase, how many players planned each command (a command's
    efficiency) and the order in which the players act: by command number,
    players with the same command in the player order. Each acting player's
    command then runs until it asks the player for a decision or is over;
    a command that is over hands over to the next player, and after the last
    player of phase 2 the game moves on to the exploit phase. */
module Perform {
  import opened Common
  import opened Ships
  import opened Hexes
  import opened Boards
  import opened World
  import opened Players
  import opened CommandData
  import opened Sorting
  import opened Game
  import ExpandCommand
  import ExploreCommand
  import ExterminateCommand

  const NUM_PERFORM_PHASES: nat := 3
  const NUM_COMMANDS: nat := 3

  // ---------------------------------------------------------------------------
  // The tables

  /** The planned command of a player for `phase`, as the sort key; the sort
      only ever runs once every lookup has succeeded. */
  function CommandKey(phase: int): Player -> int
  {
    p => match CommandForPhase(p, phase) case Ok(v) => v case Err(_) => 0
  }

  /** The first failed command lookup for `phase`, in player order. */
  function FirstLookupError(players: seq<Player>, phase: int): (r: Option<Error>)
    ensures r.None? <==> forall i :: 0 <= i < |players| ==> CommandForPhase(players[i], phase).Ok?
    ensures r.Some? ==> exists i :: 0 <= i < |players| && CommandForPhase(players[i], phase) == Err(r.value)
  {
    if players == [] then None
    else match CommandForPhase(players[0], phase)
      case Err(e) => Some(e)
      case Ok(_) =>
        var r := FirstLookupError(players[1..], phase);
        assert forall i :: 1 <= i < |players| ==> players[i] == players[1..][i - 1];
        r
  }

  /** The players who planned command `cmd` for `phase`. */
  function Planned(phase: int, cmd: int): Player -> bool
  {
    p => CommandForPhase(p, phase) == Ok(cmd)
  }

  /** The efficiency of each command (1, 2, 3) for `phase`. */
  function EfficiencyRow(players: seq<Player>, phase: int): (r: seq<int>)
    ensures |r| == NUM_COMMANDS
    ensures forall k :: 0 <= k < NUM_COMMANDS ==> r[k] == Count(players, Planned(phase, k + 1))
  {
    [Count(players, Planned(phase, 1)), Count(players, Planned(phase, 2)), Count(players, Planned(phase, 3))]
  }

  /** The tables, or the error of the first failed lookup: the lookups for
      phase 0 run first, in player order, then phase 1, then phase 2. */
  function ComputeTables(players: seq<Player>): (r: Result<Tables>)
    ensures r.Ok? <==> PlansReadable(players)
    ensures r.Err? ==> r.error == NullReference || r.error == IndexOutOfBounds
    ensures r.Ok? ==> TablesFit(r.value, |players|)
    ensures r.Ok? ==> forall ph :: 0 <= ph < NUM_PERFORM_PHASES ==>
      && r.value.efficiencies[ph] == EfficiencyRow(players, ph)
      && r.value.order[ph] == SortBy(players, CommandKey(ph))
  {
    if FirstLookupError(players, 0).Some? then Err(FirstLookupError(players, 0).value)
    else if FirstLookupError(players, 1).Some? then Err(FirstLookupError(players, 1).value)
    else if FirstLookupError(players, 2).Some? then Err(FirstLookupError(players, 2).value)
    else
      Ok(Tables(seq(NUM_PERFORM_PHASES, ph => EfficiencyRow(players, ph)),
                seq(NUM_PERFORM_PHASES, ph => SortBy(players, CommandKey(ph)))))
  }

  /** Every player planned, for every phase, a command numbered 1 to 3. */
  predicate PlansInRange(players: seq<Player>)
  {
    forall ph, i :: 0 <= ph < NUM_PERFORM_PHASES && 0 <= i < |players| ==>
      CommandForPhase(players[i], ph).Ok? && 1 <= CommandForPhase(players[i], ph).value <= NUM_COMMANDS
  }

  /** With commands numbered 1 to 3, the order of a phase is the players who
      planned Expand, then those who planned Explore, then those who planned
      Exterminate, each group in player order; every player acts exactly
      once; and the efficiencies are the sizes of the groups, so they add up
      to the number of players. */
  lemma OrderIsGroups(players: seq<Player>, ph: int)
    requires PlansInRange(players) && 0 <= ph < NUM_PERFORM_PHASES
    ensures ComputeTables(players).Ok?
    ensures var t := ComputeTables(players).value;
      && t.order[ph] == Filter(players, Planned(ph, 1)) + Filter(players, Planned(ph, 2)) + Filter(players, Planned(ph, 3))
      && multiset(t.order[ph]) == multiset(players)
      && (forall k :: 0 <= k < NUM_COMMANDS ==> t.efficiencies[ph][k] == |Filter(players, Planned(ph, k + 1))|)
      && t.efficiencies[ph][0] + t.efficiencies[ph][1] + t.efficiencies[ph][2] == |players|
  {
    var key := CommandKey(ph);
    forall i | 0 <= i < |players|
      ensures 1 <= key(players[i]) <= 3
    {
    }
    SortByIsBuckets(players, key);
    forall k | 1 <= k <= NUM_COMMANDS
      ensures Filter(players, KeyIs(key, k)) == Filter(players, Planned(ph, k))
    {
      forall x | x in players
        ensures KeyIs(key, k)(x) == Planned(ph, k)(x)
      {
      }
      FilterSameOn(players, KeyIs(key, k), Planned(ph, k));
    }
  }

  /** Every player's command for every phase can be read. */
  predicate PlansReadable(players: seq<Player>)
  {
    forall ph, i :: 0 <= ph < NUM_PERFORM_PHASES && 0 <= i < |players| ==> CommandForPhase(players[i], ph).Ok?
  }

  /** One efficiency per command for each phase. */
  predicate EfficienciesFit(t: Tables)
  {
    |t.efficiencies| == NUM_PERFORM_PHASES && forall ph :: 0 <= ph < NUM_PERFORM_PHASES ==> |t.efficiencies[ph]| == NUM_COMMANDS
  }

  /** Tables of the right shape for `n` players. */
  predicate TablesFit(t: Tables, n: nat)
  {
    && EfficienciesFit(t)
    && |t.order| == NUM_PERFORM_PHASES
    && forall ph :: 0 <= ph < NUM_PERFORM_PHASES ==> |t.order[ph]| == n
  }

  /** `commandEfficiencies[phase][cmd]` in an array with one slot per command
      number 0 to 3: slot 0 is never filled, so reading it unboxes a null. */
  function EfficiencyOf(t: Tables, phase: int, cmd: int): (r: Result<int>)
    requires EfficienciesFit(t)
    ensures r.Ok? <==> 0 <= phase < NUM_PERFORM_PHASES && 1 <= cmd <= NUM_COMMANDS
    ensures r.Ok? ==> r.value == t.efficiencies[phase][cmd - 1]
    ensures r.Err? && 0 <= phase < NUM_PERFORM_PHASES ==> (r.error == NullReference <==> cmd == 0)
  {
    if !(0 <= phase < NUM_PERFORM_PHASES) then Err(IndexOutOfBounds)
    else if cmd < 0 || cmd > NUM_COMMANDS then Err(IndexOutOfBounds)
    else if cmd == 0 then Err(NullReference)
    else Ok(t.efficiencies[phase][cmd - 1])
  }

  // ---------------------------------------------------------------------------
  // Starting and running a command

  /** The state the phase may be in between two runs: a position within
      range, tables of the right shape once computed. */
  predicate PositionFits(p: Performance, n: nat)
  {
    && 0 <= p.phase && 0 <= p.index <= n
    && (p.tables.Some? ==> TablesFit(p.tables.value, n))
  }

  /** The acting player's command, made with the efficiency of its number. */
  function Initiate(g: Game, p: Performance): (r: Result<(Game, Command)>)
    requires PositionFits(p, |g.players|)
    ensures r.Ok? ==> p.tables.Some? && 0 <= p.phase < NUM_PERFORM_PHASES && 0 <= p.index < |g.players|
    ensures r.Ok? ==>
      var actor := p.tables.value.order[p.phase][p.index];
      && r.value.0 == g.(current := Some(actor.color))
      && CommandPlayer(r.value.1) == actor.color
      && CommandForPhase(actor, p.phase).Ok?
      && var cmd := CommandForPhase(actor, p.phase).value;
         && 1 <= cmd <= NUM_COMMANDS
         && r.value.1 == StartCommand(g.table, actor.color, cmd, p.tables.value.efficiencies[p.phase][cmd - 1])
    ensures p.tables.None? ==> r == Err(NullReference)
  {
    match p.tables
    case None => Err(NullReference)
    case Some(t) =>
      if !(0 <= p.phase < NUM_PERFORM_PHASES) || !(0 <= p.index < |t.order[p.phase]|) then Err(IndexOutOfBounds)
      else
        var actor := t.order[p.phase][p.index];
        var g1 := g.(current := Some(actor.color));
        match CommandForPhase(actor, p.phase)
        case Err(e) => Err(e)
        case Ok(cmd) =>
          match EfficiencyOf(t, p.phase, cmd)
          case Err(e) => Err(e)
          case Ok(eff) => Ok((g1, StartCommand(g.table, actor.color, cmd, eff)))
  }

  /** Command 1 is Expand, 2 Explore, 3 Exterminate. */
  function StartCommand(table: ShipTable, c: PlayerColor, cmd: int, efficiency: int): (r: Command)
    requires 1 <= cmd <= NUM_COMMANDS
    ensures CommandPlayer(r) == c
    ensures cmd == 1 <==> r.ExpandCmd?
    ensures cmd == 2 <==> r.ExploreCmd?
    ensures cmd == 3 <==> r.ExterminateCmd?
  {
    if cmd == 1 then ExpandCmd(ExpandCommand.Start(table, c, efficiency))
    else if cmd == 2 then ExploreCmd(ExploreCommand.Start(c, efficiency))
    else ExterminateCmd(ExterminateCommand.Start(c, efficiency))
  }

  function CommandPlayer(c: Command): PlayerColor
  {
    match c
    case ExpandCmd(d) => d.player
    case ExploreCmd(d) => d.player
    case ExterminateCmd(d) => d.player
  }

  /** What a command needs before it can run: an exploration's path lies
      on the board and its fleet exists; an invasion's hexes lie on the
      board. */
  predicate Runnable(b: Board, table: ShipTable, c: Command)
  {
    && (c.ExploreCmd? ==> ExploreCommand.PathOnBoard(b, c.explore) && ValidIds(table, c.explore.fleet))
    && (c.ExterminateCmd? ==> ExterminateCommand.InvasionOnBoard(b, c.exterminate))
  }

  /** `prompt` is a decision the command `c` asks its player for on board
      `b`: the systems an Expand may still grow on, or a question of an
      Explore or an Exterminate that is not over. */
  predicate Asks(b: Board, c: Command, prompt: Prompt)
  {
    match prompt
    case ChooseExpandHex(pl, hexes) =>
      && c.ExpandCmd? && pl == c.expand.player && !ExpandCommand.IsFinished(b, c.expand)
      && hexes == ExpandCommand.HexesCanExpand(b, c.expand)
    case ExplorePrompt(pl, q) => c.ExploreCmd? && pl == c.explore.player && !q.Done?
    case ExterminatePrompt(pl, q) => c.ExterminateCmd? && pl == c.exterminate.player && !q.Done?
    case _ => false
  }

  /** Runs a command until it needs a decision, which is returned, or is
      over (no decision). An Expand runs without touching the board; an
      Explore may land a fleet; an Exterminate only looks. */
  function ExecuteCommand(b: Board, table: ShipTable, c: Command): (r: (Board, ShipTable, Command, Option<Prompt>))
    requires Runnable(b, table, c)
    ensures CommandPlayer(r.2) == CommandPlayer(c)
    ensures Runnable(r.0, r.1, r.2) && SameLayout(b, r.0)
    ensures r.3.Some? ==> Asks(r.0, r.2, r.3.value)
    ensures c.ExpandCmd? ==> r.0 == b && r.1 == table && r.2 == c && (r.3.None? <==> ExpandCommand.IsFinished(b, c.expand))
    ensures c.ExploreCmd? ==> r.2.ExploreCmd? && r.1 == table
    ensures c.ExterminateCmd? ==> r.0 == b && r.1 == table && r.2.ExterminateCmd?
  {
    match c
    case ExpandCmd(d) =>
      if ExpandCommand.IsFinished(b, d) then (b, table, c, None)
      else (b, table, c, Some(ChooseExpandHex(d.player, ExpandCommand.HexesCanExpand(b, d))))
    case ExploreCmd(d) =>
      var s := ExploreCommand.Execute(b, table, d);
      (s.board, s.table, ExploreCmd(s.data), if s.prompt.Done? then None else Some(ExplorePrompt(d.player, s.prompt)))
    case ExterminateCmd(d) =>
      var s := ExterminateCommand.Execute(b, table, d);
      (s.board, s.table, ExterminateCmd(s.data),
       if s.prompt.Done? then None else Some(ExterminatePrompt(d.player, s.prompt)))
  }

  // ---------------------------------------------------------------------------
  // The phase loop

  /** The first component of the loop's progress measure. */
  function PhasesLeft(p: Performance): nat
  {
    if p.phase < NUM_PERFORM_PHASES then NUM_PERFORM_PHASES - p.phase else 0
  }

  /** Where the loop stands once a finished phase has been closed: after the
      last player of a phase comes the first player of the next. */
  function Normalize(p: Performance, n: nat): (r: Performance)
    ensures p.index == n ==> r == p.(phase := p.phase + 1, index := 0)
    ensures p.index != n ==> r == p
  {
    if p.index == n then p.(phase := p.phase + 1, index := 0) else p
  }

  /** Position `q` is `p` or comes after it. */
  predicate NotBefore(p: Performance, q: Performance)
  {
    q.phase > p.phase || (q.phase == p.phase && q.index >= p.index)
  }

  /** The bookkeeping the first run computes the tables into; afterwards
      it is left as it is. */
  function Prepare(players: seq<Player>, p: Performance): (r: Result<Performance>)
    requires PositionFits(p, |players|)
    ensures r.Ok? ==> PositionFits(r.value, |players|) && r.value == p.(tables := r.value.tables)
    ensures !(p.phase == 0 && p.index == 0) ==> r == Ok(p)
    ensures p.phase == 0 && p.index == 0 ==>
      (r.Ok? <==> PlansReadable(players)) && (r.Ok? ==> r.value.tables == Some(ComputeTables(players).value))
  {
    if !(p.phase == 0 && p.index == 0) then Ok(p)
    else match ComputeTables(players)
      case Err(e) => Err(e)
      case Ok(t) => Ok(p.(tables := Some(t)))
  }

  /** The phase waits for a decision on the command under way: the
      position is within a phase and the player order, and the command can
      run. */
  predicate Awaiting(g: Game)
  {
    && g.state.Performing?
    && g.state.perform.command.Some?
    && PositionFits(g.state.perform, |g.players|)
    && 0 <= g.state.perform.phase < NUM_PERFORM_PHASES && g.state.perform.index < |g.players|
    && Runnable(g.board, g.table, g.state.perform.command.value)
  }

  /** What running the phase from `g` may lead to: the players and the turn
      are untouched and the board keeps its layout; either the phase is
      over and the exploit phase is next, or the phase waits, at the same
      or a later position, for the current player to answer what the
      command under way asks. */
  predicate Settled(g: Game, o: Outcome)
    requires g.state.Performing?
  {
    && o.game.players == g.players && o.game.turn == g.turn
    && SameLayout(g.board, o.game.board)
    && ((o.game.state.Exploiting? && o.prompt == ExploitNext)
        || (&& Awaiting(o.game)
            && NotBefore(g.state.perform, o.game.state.perform)
            && o.game.current == Some(CommandPlayer(o.game.state.perform.command.value))
            && Asks(o.game.board, o.game.state.perform.command.value, o.prompt)))
  }

  /** `PerformState.execute` with no command under way: close a finished
      phase; after phase 2 hand over to the exploit phase; at the very start
      compute the tables; start the acting player's command and run it.
      The only failures are the lookups of a missing plan or table. */
  function Run(g: Game): (r: Result<Outcome>)
    requires g.state.Performing? && g.state.perform.command.None?
    requires PositionFits(g.state.perform, |g.players|)
    ensures r.Ok? ==> Settled(g, r.value)
    ensures r.Err? ==> r.error == NullReference || r.error == IndexOutOfBounds
    decreases PhasesLeft(g.state.perform), |g.players| - g.state.perform.index, 3
  {
    var p := Normalize(g.state.perform, |g.players|);
    if p.phase == NUM_PERFORM_PHASES then Ok(Outcome(g.(state := Exploiting), ExploitNext))
    else
      match Prepare(g.players, p)
      case Err(e) => Err(e)
      case Ok(p) =>
        match Initiate(g, p)
        case Err(e) => Err(e)
        case Ok((g1, cmd)) => Resume(Launch(g1, p, cmd))
  }

  /** `currentCommand.execute()`: runs the command under way and waits for
      the decision it asks for, or hands over once it is over. */
  function Resume(g: Game): (r: Result<Outcome>)
    requires Awaiting(g)
    requires g.current == Some(CommandPlayer(g.state.perform.command.value))
    ensures r.Ok? ==> Settled(g, r.value)
    ensures r.Err? ==> r.error == NullReference || r.error == IndexOutOfBounds
    decreases PhasesLeft(g.state.perform), |g.players| - g.state.perform.index, 2
  {
    var p := g.state.perform;
    var x := ExecuteCommand(g.board, g.table, p.command.value);
    var g' := Carry(g, x.0, x.1, x.2);
    var r := Proceed(g', x.3);
    SameLayoutTrans(g.board, g'.board, if r.Ok? then r.value.game.board else g'.board);
    r
  }

  /** After the acting player's command has run: wait for the decision it
      asks for, or, once it is over, hand over to the next player. */
  function Proceed(g: Game, prompt: Option<Prompt>): (r: Result<Outcome>)
    requires Awaiting(g)
    requires g.current == Some(CommandPlayer(g.state.perform.command.value))
    requires prompt.Some? ==> Asks(g.board, g.state.perform.command.value, prompt.value)
    ensures prompt.Some? ==> r == Ok(Outcome(g, prompt.value))
    ensures prompt.None? ==> r == NextCommand(g)
    ensures r.Ok? ==> Settled(g, r.value)
    ensures r.Err? ==> r.error == NullReference || r.error == IndexOutOfBounds
    decreases PhasesLeft(g.state.perform), |g.players| - g.state.perform.index, 1
  {
    match prompt
    case Some(pr) => Ok(Outcome(g, pr))
    case None => NextCommand(g)
  }

  /** `PerformState.nextCommand`: the command under way is dropped and the
      next player in the order acts. Handing over always moves on: the next
      decision asked for is at a position strictly after the command
      dropped, or the phase is over. */
  function NextCommand(g: Game): (r: Result<Outcome>)
    requires g.state.Performing? && PositionFits(g.state.perform, |g.players|)
    requires g.state.perform.index < |g.players|
    ensures r.Ok? ==> Settled(g, r.value)
    ensures r.Ok? ==>
      r.value.game.state.Exploiting? || (r.value.game.state.Performing? && After(g.state.perform, r.value.game.state.perform))
    ensures r.Err? ==> r.error == NullReference || r.error == IndexOutOfBounds
    decreases PhasesLeft(g.state.perform), |g.players| - g.state.perform.index, 0
  {
    Run(Advance(g))
  }

  /** The game at position `p` with the command `c` under way. */
  function Launch(g: Game, p: Performance, c: Command): (r: Game)
  {
    g.(state := Performing(p.(command := Some(c))))
  }

  /** The game on board `b` and table `t`, with `c` the command under way
      at the same position. */
  function Carry(g: Game, b: Board, t: ShipTable, c: Command): (r: Game)
    requires g.state.Performing?
  {
    g.(board := b, table := t, state := Performing(g.state.perform.(command := Some(c))))
  }

  /** The game with the position moved past the acting player and no
      command under way. */
  function Advance(g: Game): (r: Game)
    requires g.state.Performing?
  {
    var p := g.state.perform;
    g.(state := Performing(p.(index := p.index + 1, command := None)))
  }

  /** Position `q` of the phase comes strictly after position `p`. */
  predicate After(p: Performance, q: Performance)
  {
    q.phase > p.phase || (q.phase == p.phase && q.index > p.index)
  }
}
