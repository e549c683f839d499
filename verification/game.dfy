/** A game: the turn number, the board, the table of every ship, the players
    in their current order, the player whose decision is awaited, and the
    phase the game is in. Players join one at a time until there are three,
    each with a colour given by the order of joining and a pool of 15 ships;
    the player order rotates by one at the end of every round. */
module Game {
  import opened Common
  import opened Ships
  import opened Boards
  import opened World
  import opened Players
  import opened Hexes
  import opened CommandData
  import ExploreCommand
  import ExterminateCommand

  /** Players in a game. */
  const NB_PLAYERS: nat := 3

  /** The command a player is carrying out during the perform phase. */
  datatype Command =
    | ExpandCmd(expand: ExpandData)
    | ExploreCmd(explore: ExploreData)
    | ExterminateCmd(exterminate: ExterminateData)

  /** What the perform phase computes once per round: `efficiencies[phase][k]`
      counts the players who planned command `k + 1` for that phase, and
      `order[phase]` lists the players in the order they act in that phase
      (as they were when the tables were computed; their plans do not change
      during the phase). */
  datatype Tables = Tables(efficiencies: seq<seq<int>>, order: seq<seq<Player>>)

  /** The perform phase's bookkeeping: the tables once computed, the phase
      (0, 1 or 2), the position of the acting player in that phase's order,
      and the command under way, if any. */
  datatype Performance = Performance(tables: Option<Tables>, index: int, phase: int, command: Option<Command>)

  /** The perform phase as it starts: nothing computed, nobody acting. */
  const PERFORM_START := Performance(None, 0, 0, None)

  /** The phases of a round, as the game's state objects. `Exploiting` is
      where the perform phase hands over; what it does is not part of this
      model. */
  datatype State =
    | Deploying(deployCounter: int, occupiedSectors: seq<int>)
    | Planning(planCounter: int)
    | Performing(perform: Performance)
    | Exploiting
    | EndingRound
    | Ended(winner: PlayerColor)

  datatype Game = Game(turn: int, board: Board, table: ShipTable, players: seq<Player>,
                       current: Option<PlayerColor>, state: State)

  /** The decision the game waits for after running, and from whom; or the
      hand-over to the exploit phase; or the end of the game. */
  datatype Prompt =
    | ChooseDeployHex(deployer: PlayerColor, hexes: seq<Coord>)
    | ChooseCommands(planner: PlayerColor)
    | ChooseExpandHex(expander: PlayerColor, hexes: seq<Coord>)
    | ExplorePrompt(explorer: PlayerColor, explore: ExploreCommand.Prompt)
    | ExterminatePrompt(exterminator: PlayerColor, exterminate: ExterminateCommand.Prompt)
    | ExploitNext
    | GameOver(winner: PlayerColor)

  datatype Outcome = Outcome(game: Game, prompt: Prompt)

  /** The players joined so far own the pools at the start of the table,
      their colours are those of the first `n` joiners, each once. Rotating
      the players keeps this. */
  predicate Roster(players: seq<Player>, table: ShipTable)
  {
    && |players| <= NB_PLAYERS
    && PoolsBuilt(table, |players|)
    && ColorsDistinct(players)
    && forall i :: 0 <= i < |players| ==> ColorIndex(players[i].color) < |players|
  }

  /** Changing flags of ships keeps the roster: the pools stay where they were. */
  lemma RosterSameOwners(players: seq<Player>, table: ShipTable, t: ShipTable)
    requires Roster(players, table) && SameOwners(table, t)
    ensures Roster(players, t)
  {
  }

  /** A new game on a new board: turn 1, deployment about to start,
      nobody has joined yet. The board is a parameter; it is generated
      from a draw of the random choices (`Generate`). */
  function NewGame(board: Board): (g: Game)
    ensures g.turn == 1 && g.state == Deploying(0, []) && g.board == board
    ensures g.players == [] && g.table == [] && g.current.None?
    ensures Roster(g.players, g.table) && !IsGameOngoing(g)
  {
    Game(1, board, [], [], None, Deploying(0, []))
  }

  /** A new game on a generated board is consistent. */
  lemma NewGameValid(d: Draw)
    requires ValidDraw(d)
    ensures Consistent(NewGame(Generate(d)).board, NewGame(Generate(d)).table)
  {
    GenerateConsistent(d, []);
  }

  /** The strategy a name selects, if any. */
  function StrategyNamed(name: string): (r: Option<Strategy>)
    ensures r.Some? <==> name in {"Aggressive", "Amical", "Human"}
    ensures r == Some(HumanStrategy) <==> name == "Human"
  {
    if name == "Aggressive" then Some(AggressiveRobot)
    else if name == "Amical" then Some(AmicalRobot)
    else if name == "Human" then Some(HumanStrategy)
    else None
  }

  /** A player joins: nothing happens once three have joined; otherwise the
      new player gets the next colour and 15 new ships, and plays as a human
      unless it is a robot, whose strategy is named; an unknown name is an
      error and nobody joins. */
  function AddPlayer(g: Game, name: string, isRobot: bool, strategy: string): (r: Result<Game>)
    ensures |g.players| == NB_PLAYERS ==> r == Ok(g)
    ensures |g.players| < NB_PLAYERS ==>
      (r.Err? <==> isRobot && StrategyNamed(strategy).None?) && (r.Err? ==> r.error == UnknownStrategy)
    ensures |g.players| < NB_PLAYERS && r.Ok? ==>
      && r.value == g.(players := r.value.players, table := r.value.table)
      && |r.value.players| == |g.players| + 1
      && r.value.players == g.players + [r.value.players[|g.players|]]
      && r.value.players[|g.players|] == NewPlayer(name, ColorAt(|g.players|), r.value.players[|g.players|].strategy)
      && (!isRobot ==> r.value.players[|g.players|].strategy == HumanStrategy)
      && r.value.table == g.table + BuildPool(ColorAt(|g.players|))
    ensures |g.players| > NB_PLAYERS ==> r == Err(IndexOutOfBounds)
  {
    var n := |g.players|;
    if n == NB_PLAYERS then Ok(g)
    else if n > NB_PLAYERS then Err(IndexOutOfBounds)
    else
      var chosen := if isRobot then StrategyNamed(strategy) else Some(HumanStrategy);
      match chosen
      case None => Err(UnknownStrategy)
      case Some(st) =>
        Ok(g.(players := g.players + [NewPlayer(name, ColorAt(n), st)],
              table := g.table + BuildPool(ColorAt(n))))
  }

  /** Joining keeps the roster and the board consistent: the new ships are
      all in the reserve. */
  lemma {:induction false} AddPlayerKeepsRoster(g: Game, name: string, isRobot: bool, strategy: string)
    requires Roster(g.players, g.table) && Placement(g.board.cells, g.table)
    requires AddPlayer(g, name, isRobot, strategy).Ok?
    ensures Roster(AddPlayer(g, name, isRobot, strategy).value.players, AddPlayer(g, name, isRobot, strategy).value.table)
    ensures Placement(AddPlayer(g, name, isRobot, strategy).value.board.cells, AddPlayer(g, name, isRobot, strategy).value.table)
  {
    var n := |g.players|;
    if n < NB_PLAYERS {
      var r := AddPlayer(g, name, isRobot, strategy).value;
      BuildPoolAppend(g.table, n);
      TableGrowPlacement(g.board.cells, g.table, BuildPool(ColorAt(n)));
      forall i, j | 0 <= i < j < |r.players|
        ensures r.players[i].color != r.players[j].color
      {
        if j == n {
          ColorAtInjective(ColorIndex(r.players[i].color), n);
        }
      }
    }
  }

  /** The game can be played once three players have joined. */
  predicate IsGameOngoing(g: Game)
  {
    |g.players| == NB_PLAYERS
  }

  /** Three players joining a game nobody has joined make it playable, in
      colour order; a fourth is turned away and changes nothing. */
  lemma {:induction false} ThreeJoinersStartTheGame(g: Game, names: seq<string>, strategies: seq<string>)
    requires g.players == [] && |names| == 3 && |strategies| == 3
    requires forall i :: 0 <= i < 3 ==> StrategyNamed(strategies[i]).Some?
    ensures var g1 := AddPlayer(g, names[0], true, strategies[0]);
            g1.Ok? &&
            var g2 := AddPlayer(g1.value, names[1], true, strategies[1]);
            g2.Ok? &&
            var g3 := AddPlayer(g2.value, names[2], true, strategies[2]);
            g3.Ok? && IsGameOngoing(g3.value)
            && (forall i :: 0 <= i < 3 ==> g3.value.players[i].color == ColorAt(i))
            && AddPlayer(g3.value, names[0], true, strategies[0]) == g3
  {
    var r1 := AddPlayer(g, names[0], true, strategies[0]);
    assert r1.Ok? && |r1.value.players| == 1;
    var g1 := r1.value;
    var r2 := AddPlayer(g1, names[1], true, strategies[1]);
    assert r2.Ok? && |r2.value.players| == 2;
    var g2 := r2.value;
    var r3 := AddPlayer(g2, names[2], true, strategies[2]);
    assert r3.Ok? && |r3.value.players| == 3;
    var g3 := r3.value;
    assert g3.players[0] == g2.players[0] == g1.players[0];
    assert g3.players[1] == g2.players[1];
  }

  /** `Collections.rotate(players, 1)`: the last element moves to the front
      and the others keep their order. */
  function Rotate<T>(s: seq<T>): (r: seq<T>)
    ensures |r| == |s|
    ensures s != [] ==> r[0] == s[|s| - 1] && r[1..] == s[..|s| - 1]
  {
    if s == [] then [] else [s[|s| - 1]] + s[..|s| - 1]
  }

  /** Rotation only reorders. */
  lemma RotatePermutes<T>(s: seq<T>)
    ensures multiset(Rotate(s)) == multiset(s)
  {
    if s != [] {
      assert s == s[..|s| - 1] + [s[|s| - 1]];
    }
  }

  function RotateTimes<T>(s: seq<T>, k: nat): (r: seq<T>)
  {
    if k == 0 then s else Rotate(RotateTimes(s, k - 1))
  }

  /** Rotating a list whose last part is nonempty moves its last element
      to the front. */
  lemma RotateConcat<T>(a: seq<T>, b: seq<T>)
    requires b != []
    ensures Rotate(a + b) == [b[|b| - 1]] + a + b[..|b| - 1]
  {
    var s := a + b;
    assert s[|s| - 1] == b[|b| - 1];
    assert s[..|s| - 1] == a + b[..|b| - 1];
  }

  /** One rotation of the list split after position `j + 1`. */
  lemma RotateSplitStep<T>(s: seq<T>, j: nat)
    requires j < |s|
    ensures Rotate(s[j + 1..] + s[..j + 1]) == s[j..] + s[..j]
  {
    var a, b := s[j + 1..], s[..j + 1];
    RotateConcat(a, b);
    assert b[|b| - 1] == s[j] && b[..|b| - 1] == s[..j];
    assert [s[j]] + a == s[j..];
  }

  /** Rotating `k` times moves the last `k` elements to the front. */
  lemma {:induction false} RotateTimesSplit<T>(s: seq<T>, k: nat)
    requires k <= |s|
    ensures RotateTimes(s, k) == s[|s| - k..] + s[..|s| - k]
  {
    if k == 0 {
      assert s[|s|..] == [] && s[..|s|] == s;
    } else {
      var j := |s| - k;
      RotateTimesSplit(s, k - 1);
      assert RotateTimes(s, k - 1) == s[j + 1..] + s[..j + 1];
      RotateSplitStep(s, j);
    }
  }

  /** After as many rounds as there are players the order is back where it
      started. */
  lemma RotateFullCircle<T>(s: seq<T>)
    ensures RotateTimes(s, |s|) == s
  {
    RotateTimesSplit(s, |s|);
    assert s[0..] + s[..0] == s;
  }

  /** Rotating the players keeps the roster. */
  lemma RotateKeepsRoster(players: seq<Player>, table: ShipTable)
    requires Roster(players, table)
    ensures Roster(Rotate(players), table)
  {
    var r := Rotate(players);
    var n := |players|;
    if n > 0 {
      assert forall i :: 0 <= i < n ==> r[i] == (if i == 0 then players[n - 1] else players[i - 1]);
      forall i, j | 0 <= i < j < n
        ensures r[i].color != r[j].color
      {
        if i == 0 {
          assert r[j] == players[j - 1];
        }
      }
    }
  }

  function RotatePlayers(g: Game): (r: Game)
    ensures r == g.(players := Rotate(g.players))
  {
    g.(players := Rotate(g.players))
  }

  function IncrementTurn(g: Game): (r: Game)
    ensures r.turn == g.turn + 1 && r == g.(turn := r.turn)
  {
    g.(turn := g.turn + 1)
  }

  /** The player at position `i` becomes the current player; a position
      outside the list is an index error. */
  function SetCurrentPlayer(g: Game, i: int): (r: Result<Game>)
    ensures r.Ok? <==> 0 <= i < |g.players|
    ensures r.Ok? ==> r.value == g.(current := Some(g.players[i].color))
    ensures r.Err? ==> r.error == IndexOutOfBounds
  {
    if 0 <= i < |g.players| then Ok(g.(current := Some(g.players[i].color)))
    else Err(IndexOutOfBounds)
  }

  /** Where the player of colour `c` stands in the list, if it is there. */
  function IndexOfColor(players: seq<Player>, c: PlayerColor): (r: Option<nat>)
    ensures r.Some? ==> r.value < |players| && players[r.value].color == c
    ensures r.None? <==> forall i :: 0 <= i < |players| ==> players[i].color != c
    ensures r.Some? ==> forall i :: 0 <= i < r.value ==> players[i].color != c
  {
    if players == [] then None
    else if players[0].color == c then Some(0)
    else match IndexOfColor(players[1..], c)
      case None => None
      case Some(k) => Some(k + 1)
  }

  /** The player of colour `c`, changed by `f`; the others are left as they
      are, and nothing changes when no player has that colour. */
  function UpdatePlayer(players: seq<Player>, c: PlayerColor, f: Player -> Player): (r: seq<Player>)
    ensures |r| == |players|
    ensures forall i :: 0 <= i < |r| ==> r[i] == (if players[i].color == c then f(players[i]) else players[i])
  {
    seq(|players|, i requires 0 <= i < |players| => if players[i].color == c then f(players[i]) else players[i])
  }
}
