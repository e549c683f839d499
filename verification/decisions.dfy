/** The decisions a player answers during the perform phase, at the level of
    the game: each one is handed to the command under way (`Expand.addShips`,
    `Explore.startExplore`, ...). A decision of the wrong kind for the
    command under way is an error; a decision the command refuses changes
    nothing (no outcome); an accepted one is carried out, after which the
    command runs on until it asks again or is over, in which case the next
    player acts. */
module PerformDecisions {
  import opened Common
  import opened Ships
  import opened Players
  import opened Hexes
  import opened Boards
  import opened World
  import opened CommandData
  import opened Game
  import opened Perform
  import ExpandCommand
  import ExploreCommand
  import ExterminateCommand

  /** A game waiting for the current player to answer the command under way. */
  predicate Waiting(g: Game)
  {
    Awaiting(g) && g.current == Some(CommandPlayer(g.state.perform.command.value))
  }

  function CommandUnderWay(g: Game): Command
    requires Waiting(g)
  {
    g.state.perform.command.value
  }

  /** The errors running on may end in. */
  predicate RunError(e: Error)
  {
    e == NullReference || e == IndexOutOfBounds
  }

  /** The command has moved to board `b` and table `t` and is now `c`: wait
      for its next question, or hand over once it is over. */
  function Continue(g: Game, b: Board, t: ShipTable, c: Command, prompt: Option<Prompt>): (r: Result<Outcome>)
    requires Waiting(g) && SameLayout(g.board, b)
    requires prompt.Some? ==>
      Runnable(b, t, c) && Asks(b, c, prompt.value) && CommandPlayer(c) == CommandPlayer(CommandUnderWay(g))
    ensures r.Ok? ==> Settled(g, r.value)
    ensures r.Err? ==> RunError(r.error)
  {
    match prompt
    case Some(pr) => Ok(Outcome(Carry(g, b, t, c), pr))
    case None =>
      var r := NextCommand(g.(board := b, table := t));
      SameLayoutTrans(g.board, b, if r.Ok? then r.value.game.board else b);
      r
  }

  /** The answer to a decision that is accepted, once the game has gone on. */
  function Accepted(r: Result<Outcome>): (a: Result<Option<Outcome>>)
    ensures a.Err? <==> r.Err?
    ensures a.Err? ==> a.error == r.error
    ensures a.Ok? ==> a.value == Some(r.value)
  {
    match r
    case Err(e) => Err(e)
    case Ok(o) => Ok(Some(o))
  }

  // ---------------------------------------------------------------------------
  // Expand

  /** `Expand.addShips(hex, n)`. */
  function ExpandAddShips(g: Game, c: Coord, n: int): (r: Result<Option<Outcome>>)
    requires Waiting(g)
    ensures r == Err(UnexpectedDecision) <==> !CommandUnderWay(g).ExpandCmd?
    ensures CommandUnderWay(g).ExpandCmd? ==>
      var d := CommandUnderWay(g).expand;
      && (r == Ok(None) <==> !ExpandCommand.CanExpandFleet(g.board, d, c, n))
      && (ExpandCommand.CanExpandFleet(g.board, d, c, n) && n > |UnusedShips(g.table, d.player)| ==> r == Err(IndexOutOfBounds))
    ensures r.Err? && r.error != UnexpectedDecision ==> RunError(r.error)
    ensures r.Ok? && r.value.Some? ==> Settled(g, r.value.value)
  {
    if !CommandUnderWay(g).ExpandCmd? then Err(UnexpectedDecision)
    else
      var d := CommandUnderWay(g).expand;
      if !ExpandCommand.CanExpandFleet(g.board, d, c, n) then Ok(None)
      else
        match ExpandCommand.AddShips(g.board, g.table, d, c, n)
        case Err(e) => Err(e)
        case Ok((b, t, d')) =>
          var g' := Carry(g, b, t, ExpandCmd(d'));
          match Resume(g')
          case Err(e) => Err(e)
          case Ok(o) => SameLayoutTrans(g.board, b, o.game.board); Ok(Some(o))
  }

  /** `Expand.finishCommand`: the player stops expanding and the next
      player acts. */
  function ExpandFinish(g: Game): (r: Result<Outcome>)
    requires Waiting(g)
    ensures r == Err(UnexpectedDecision) <==> !CommandUnderWay(g).ExpandCmd?
    ensures r.Err? && r.error != UnexpectedDecision ==> RunError(r.error)
    ensures r.Ok? ==> Settled(g, r.value)
  {
    if !CommandUnderWay(g).ExpandCmd? then Err(UnexpectedDecision) else NextCommand(g)
  }

  // ---------------------------------------------------------------------------
  // Explore

  /** Continues after an Explore decision produced step `s`. */
  function ExploreContinue(g: Game, s: ExploreCommand.Step): (r: Result<Outcome>)
    requires Waiting(g) && CommandUnderWay(g).ExploreCmd?
    requires SameLayout(g.board, s.board) && s.data.player == CommandUnderWay(g).explore.player
    requires !s.prompt.Done? ==> ExploreCommand.PathOnBoard(s.board, s.data) && ValidIds(s.table, s.data.fleet)
    ensures r.Ok? ==> Settled(g, r.value)
    ensures r.Err? ==> RunError(r.error)
  {
    var pl := CommandUnderWay(g).explore.player;
    Continue(g, s.board, s.table, ExploreCmd(s.data), if s.prompt.Done? then None else Some(ExplorePrompt(pl, s.prompt)))
  }

  /** `Explore.startExplore(hex)`: a movement starts from `c`. */
  function ExploreStart(g: Game, c: Coord): (r: Result<Option<Outcome>>)
    requires Waiting(g)
    ensures r == Err(UnexpectedDecision) <==> !CommandUnderWay(g).ExploreCmd?
    ensures CommandUnderWay(g).ExploreCmd? ==>
      (r == Ok(None) <==> !ExploreCommand.CanStartExplore(g.board, g.table, CommandUnderWay(g).explore.player, c))
    ensures r.Err? && r.error != UnexpectedDecision ==> RunError(r.error)
    ensures r.Ok? && r.value.Some? ==> Settled(g, r.value.value)
  {
    if !CommandUnderWay(g).ExploreCmd? then Err(UnexpectedDecision)
    else
      var d := CommandUnderWay(g).explore;
      match ExploreCommand.StartExplore(g.board, g.table, d, c)
      case None => Ok(None)
      case Some(s) =>
        Accepted(ExploreContinue(g, s))
  }

  /** `Explore.exploreNext(hex, adjustment)`: the fleet steps to `next`,
      having taken or left `adjustment` ships on the hex it leaves. */
  function ExploreNext(g: Game, next: Coord, adjustment: int): (r: Result<Option<Outcome>>)
    requires Waiting(g)
    ensures r == Err(UnexpectedDecision) <==> !CommandUnderWay(g).ExploreCmd?
    ensures CommandUnderWay(g).ExploreCmd? ==>
      var d := CommandUnderWay(g).explore;
      && (d.path == [] ==> r == Err(NullReference))
      && (d.path != [] ==> (r == Ok(None) <==> !ExploreCommand.CanExploreNext(g.board, g.table, d, next, adjustment)))
    ensures r.Err? && r.error != UnexpectedDecision ==> RunError(r.error)
    ensures r.Ok? && r.value.Some? ==> Settled(g, r.value.value)
  {
    if !CommandUnderWay(g).ExploreCmd? then Err(UnexpectedDecision)
    else
      var d := CommandUnderWay(g).explore;
      match ExploreCommand.ExploreNextDecision(g.board, g.table, d, next, adjustment)
      case Err(e) => Err(e)
      case Ok(None) => Ok(None)
      case Ok(Some(s)) =>
        Accepted(ExploreContinue(g, s))
  }

  /** `Explore.finishCurrentMovement`: the fleet lands where it is. */
  function ExploreFinishMovement(g: Game): (r: Result<Outcome>)
    requires Waiting(g)
    ensures r == Err(UnexpectedDecision) <==> !CommandUnderWay(g).ExploreCmd?
    ensures r.Err? && r.error != UnexpectedDecision ==> RunError(r.error)
    ensures r.Ok? ==> Settled(g, r.value)
  {
    if !CommandUnderWay(g).ExploreCmd? then Err(UnexpectedDecision)
    else ExploreContinue(g, ExploreCommand.FinishCurrentMovement(g.board, g.table, CommandUnderWay(g).explore))
  }

  /** `Explore.finishCommand`: the fleet lands and the next player acts. */
  function ExploreFinish(g: Game): (r: Result<Outcome>)
    requires Waiting(g)
    ensures r == Err(UnexpectedDecision) <==> !CommandUnderWay(g).ExploreCmd?
    ensures r.Err? && r.error != UnexpectedDecision ==> RunError(r.error)
    ensures r.Ok? ==> Settled(g, r.value)
  {
    if !CommandUnderWay(g).ExploreCmd? then Err(UnexpectedDecision)
    else ExploreContinue(g, ExploreCommand.FinishCommand(g.board, g.table, CommandUnderWay(g).explore))
  }

  // ---------------------------------------------------------------------------
  // Exterminate

  /** Continues after an Exterminate decision produced step `s`. */
  function ExterminateContinue(g: Game, s: ExterminateCommand.Step): (r: Result<Outcome>)
    requires Waiting(g) && CommandUnderWay(g).ExterminateCmd?
    requires SameLayout(g.board, s.board) && s.data.player == CommandUnderWay(g).exterminate.player
    requires !s.prompt.Done? ==> ExterminateCommand.InvasionOnBoard(s.board, s.data)
    ensures r.Ok? ==> Settled(g, r.value)
    ensures r.Err? ==> RunError(r.error)
  {
    var pl := CommandUnderWay(g).exterminate.player;
    Continue(g, s.board, s.table, ExterminateCmd(s.data),
             if s.prompt.Done? then None else Some(ExterminatePrompt(pl, s.prompt)))
  }

  /** `Exterminate.startInvadingHex(hex)`: `c` becomes the target. */
  function ExterminateStart(g: Game, c: Coord): (r: Result<Option<Outcome>>)
    requires Waiting(g)
    ensures r == Err(UnexpectedDecision) <==> !CommandUnderWay(g).ExterminateCmd?
    ensures CommandUnderWay(g).ExterminateCmd? ==>
      (r == Ok(None) <==> !ExterminateCommand.CanInvadeHex(g.board, g.table, CommandUnderWay(g).exterminate.player, c))
    ensures r.Err? && r.error != UnexpectedDecision ==> RunError(r.error)
    ensures r.Ok? && r.value.Some? ==> Settled(g, r.value.value)
  {
    if !CommandUnderWay(g).ExterminateCmd? then Err(UnexpectedDecision)
    else
      var d := CommandUnderWay(g).exterminate;
      match ExterminateCommand.StartInvadingHex(g.board, g.table, d, c)
      case None => Ok(None)
      case Some(s) =>
        Accepted(ExterminateContinue(g, s))
  }

  /** `Exterminate.addShipsInvadingHex(hex, n)`: `n` ships of `src` join
      the invasion under way. */
  function ExterminateAddShips(g: Game, src: Coord, n: int): (r: Result<Option<Outcome>>)
    requires Waiting(g)
    ensures r == Err(UnexpectedDecision) <==> !CommandUnderWay(g).ExterminateCmd?
    ensures CommandUnderWay(g).ExterminateCmd? ==>
      var d := CommandUnderWay(g).exterminate;
      && (r == Ok(None) <==> !ExterminateCommand.CanAddShipsInvadingHex(g.board, g.table, d, src, n))
      && (r == Err(IllegalArgument) <==> ExterminateCommand.CanAddShipsInvadingHex(g.board, g.table, d, src, n) && n < 0)
    ensures r.Err? && r.error != UnexpectedDecision && r.error != IllegalArgument ==> RunError(r.error)
    ensures r.Ok? && r.value.Some? ==> Settled(g, r.value.value)
  {
    if !CommandUnderWay(g).ExterminateCmd? then Err(UnexpectedDecision)
    else
      var d := CommandUnderWay(g).exterminate;
      match ExterminateCommand.AddShipsInvadingHex(g.board, g.table, d, src, n)
      case Err(e) => Err(e)
      case Ok(None) => Ok(None)
      case Ok(Some(s)) =>
        Accepted(ExterminateContinue(g, s))
  }

  /** `Exterminate.finishCurrentInvasion`: the invasion under way ends. */
  function ExterminateFinishInvasion(g: Game): (r: Result<Outcome>)
    requires Waiting(g)
    ensures r == Err(UnexpectedDecision) <==> !CommandUnderWay(g).ExterminateCmd?
    ensures r.Err? && r.error != UnexpectedDecision ==> RunError(r.error)
    ensures r.Ok? ==> Settled(g, r.value)
  {
    if !CommandUnderWay(g).ExterminateCmd? then Err(UnexpectedDecision)
    else ExterminateContinue(g, ExterminateCommand.FinishCurrentInvasion(g.board, g.table, CommandUnderWay(g).exterminate))
  }

  /** `Exterminate.finishCommand`: the next player acts. */
  function ExterminateFinish(g: Game): (r: Result<Outcome>)
    requires Waiting(g)
    ensures r == Err(UnexpectedDecision) <==> !CommandUnderWay(g).ExterminateCmd?
    ensures r.Err? && r.error != UnexpectedDecision ==> RunError(r.error)
    ensures r.Ok? ==> Settled(g, r.value)
  {
    if !CommandUnderWay(g).ExterminateCmd? then Err(UnexpectedDecision)
    else ExterminateContinue(g, ExterminateCommand.FinishCommand(g.board, g.table, CommandUnderWay(g).exterminate))
  }
}
