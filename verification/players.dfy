/** A player: name, colour, score, the three commands planned for the
    current round, and who takes the decisions (a human or one of two
    robots). Each player owns a pool of 15 ships, built when the player
    joins; the pool of the `i`-th player to join is the block of ship ids
    `15 * i .. 15 * i + 14` of the ship table. */
module Players {
  import opened Common
  import opened Ships

  /** Ships built for every player. */
  const NB_SHIPS: nat := 15

  datatype Strategy = HumanStrategy | AggressiveRobot | AmicalRobot

  datatype Player = Player(name: string, color: PlayerColor, score: int,
                           chosenCommands: Option<seq<int>>, strategy: Strategy)

  /** A player as it joins: no score, no plan yet. */
  function NewPlayer(name: string, color: PlayerColor, strategy: Strategy): (p: Player)
    ensures p.name == name && p.color == color && p.strategy == strategy
    ensures p.score == 0 && p.chosenCommands.None?
  {
    Player(name, color, 0, None, strategy)
  }

  /** Insertion index of the player of a colour (colours are handed out in
      order Blue, Green, Red). */
  function ColorIndex(c: PlayerColor): (i: nat)
    ensures i < 3 && ColorAt(i) == c
  {
    match c
    case Blue => 0
    case Green => 1
    case Red => 2
  }

  /** The ids of the ships built for the player of colour `c`, in the order
      they were built. */
  function Pool(c: PlayerColor): (r: seq<ShipId>)
    ensures |r| == NB_SHIPS
    ensures forall k :: 0 <= k < |r| ==> r[k] == NB_SHIPS * ColorIndex(c) + k
  {
    IdRange(NB_SHIPS * ColorIndex(c), NB_SHIPS)
  }

  /** The `n` consecutive ship ids from `lo`. */
  function IdRange(lo: ShipId, n: nat): (r: seq<ShipId>)
    ensures |r| == n
    ensures forall k :: 0 <= k < n ==> r[k] == lo + k
    decreases n
  {
    if n == 0 then [] else [lo] + IdRange(lo + 1, n - 1)
  }

  /** The ship table holds the pools of the first `n` players, in order. */
  predicate PoolsBuilt(table: ShipTable, n: nat)
  {
    && n <= 3
    && |table| == NB_SHIPS * n
    && forall id :: 0 <= id < |table| ==> table[id].owner == ColorAt(id / NB_SHIPS)
  }

  /** The ships a joining player brings. */
  function BuildPool(c: PlayerColor): (r: ShipTable)
    ensures |r| == NB_SHIPS
    ensures forall k :: 0 <= k < |r| ==> r[k] == NewShip(c)
  {
    seq(NB_SHIPS, k => NewShip(c))
  }

  /** Appending the pool of the next colour keeps the table in pool order;
      the new pool is exactly the new player's ships. */
  lemma BuildPoolAppend(table: ShipTable, n: nat)
    requires PoolsBuilt(table, n) && n < 3
    ensures PoolsBuilt(table + BuildPool(ColorAt(n)), n + 1)
    ensures forall k :: 0 <= k < NB_SHIPS ==> Pool(ColorAt(n))[k] == |table| + k
  {
    var t := table + BuildPool(ColorAt(n));
    forall id | 0 <= id < |t|
      ensures t[id].owner == ColorAt(id / NB_SHIPS)
    {
      if id >= |table| {
        assert (id - |table|) < NB_SHIPS;
        assert id / NB_SHIPS == n;
      }
    }
  }

  /** In a table holding the pools, a colour's pool is exactly its ships. */
  lemma PoolIsOwnedShips(table: ShipTable, n: nat, c: PlayerColor)
    requires PoolsBuilt(table, n) && ColorIndex(c) < n
    ensures ValidIds(table, Pool(c))
    ensures forall id :: 0 <= id < |table| ==> (id in Pool(c) <==> table[id].owner == c)
  {
    var base := NB_SHIPS * ColorIndex(c);
    forall id | 0 <= id < |table|
      ensures id in Pool(c) <==> table[id].owner == c
    {
      if id in Pool(c) {
        var k :| 0 <= k < NB_SHIPS && Pool(c)[k] == id;
        assert id / NB_SHIPS == ColorIndex(c);
      }
      if table[id].owner == c {
        ColorAtInjective(id / NB_SHIPS, ColorIndex(c));
        assert id / NB_SHIPS == ColorIndex(c);
        assert Pool(c)[id - base] == id;
      }
    }
  }

  /** The ships of the pool still in the reserve, in pool order. */
  function UnusedShips(table: ShipTable, c: PlayerColor): (r: seq<ShipId>)
    ensures forall s :: s in r <==> s in Pool(c) && s < |table| && !table[s].deployed
    ensures |r| <= NB_SHIPS
  {
    Filter(Pool(c), (s: ShipId) => s < |table| && !table[s].deployed)
  }

  /** Deploying the first `n` ships of a reserve takes exactly those out of
      it: what is left is the rest of the reserve, in the same order, and
      the other colours' reserves do not change. */
  lemma DeployFromReserve(table: ShipTable, c: PlayerColor, n: nat)
    requires n <= |UnusedShips(table, c)|
    ensures UnusedShips(SetDeployedAll(table, UnusedShips(table, c)[..n], true), c) == UnusedShips(table, c)[n..]
    ensures forall c' :: c' != c ==>
      UnusedShips(SetDeployedAll(table, UnusedShips(table, c)[..n], true), c') == UnusedShips(table, c')
  {
    var u := UnusedShips(table, c);
    var t := SetDeployedAll(table, u[..n], true);
    var p := (s: ShipId) => s < |table| && !table[s].deployed;
    var q := (s: ShipId) => s < |t| && !t[s].deployed;
    assert Distinct(Pool(c));
    forall x | x in Pool(c)
      ensures q(x) == (p(x) && x !in Filter(Pool(c), p)[..n])
    {
      if x in u[..n] {
        assert x in u;
      }
    }
    FilterDropPrefix(Pool(c), p, q, n);
    forall c' | c' != c
      ensures UnusedShips(t, c') == UnusedShips(table, c')
    {
      forall x | x in Pool(c')
        ensures q(x) == p(x)
      {
        assert x !in Pool(c) by {
          ColorAtInjective(ColorIndex(c), ColorIndex(c'));
        }
        assert x !in u[..n];
      }
      FilterSameOn(Pool(c'), q, p);
    }
  }

  /** A player is eliminated when all 15 ships are in the reserve. */
  predicate IsEliminated(table: ShipTable, c: PlayerColor)
  {
    |UnusedShips(table, c)| == NB_SHIPS
  }

  /** Eliminated exactly when no ship of the pool is on the board. */
  lemma EliminatedIffNoneDeployed(table: ShipTable, c: PlayerColor)
    requires ValidIds(table, Pool(c))
    ensures IsEliminated(table, c) <==> forall s :: s in Pool(c) ==> !table[s].deployed
  {
    FilterAllIff(Pool(c), (s: ShipId) => s < |table| && !table[s].deployed);
  }

  /** A filter keeps every element exactly when every element passes. */
  lemma {:induction false} FilterAllIff<T(!new)>(s: seq<T>, p: T -> bool)
    ensures |Filter(s, p)| == |s| <==> forall x :: x in s ==> p(x)
  {
    if s != [] {
      FilterAllIff(s[1..], p);
      assert s == [s[0]] + s[1..];
      assert forall x :: x in s <==> x == s[0] || x in s[1..];
    }
  }

  function AddToScore(p: Player, points: int): (r: Player)
    ensures r.score == p.score + points
    ensures r.(score := p.score) == p
  {
    p.(score := p.score + points)
  }

  /** Adds `points` to the player of colour `c` in the list. */
  function AddToScoreOf(players: seq<Player>, c: PlayerColor, points: int): (r: seq<Player>)
    ensures |r| == |players|
    ensures forall i :: 0 <= i < |r| && players[i].color == c ==> r[i] == AddToScore(players[i], points)
    ensures forall i :: 0 <= i < |r| && players[i].color != c ==> r[i] == players[i]
  {
    seq(|players|, i requires 0 <= i < |players| =>
      if players[i].color == c then AddToScore(players[i], points) else players[i])
  }

  /** Total of the scores. */
  function TotalScore(players: seq<Player>): int
  {
    if players == [] then 0 else players[0].score + TotalScore(players[1..])
  }

  /** With colours unique in the list, scoring one player raises the total
      by exactly the points given, and by nothing when that colour is absent. */
  lemma {:induction false} AddToScoreOfTotal(players: seq<Player>, c: PlayerColor, points: int)
    requires ColorsDistinct(players)
    ensures TotalScore(AddToScoreOf(players, c, points))
         == TotalScore(players) + (if exists i :: 0 <= i < |players| && players[i].color == c then points else 0)
  {
    if players != [] {
      var r := AddToScoreOf(players, c, points);
      assert r[1..] == AddToScoreOf(players[1..], c, points);
      AddToScoreOfTotal(players[1..], c, points);
      if players[0].color == c {
        assert forall i :: 1 <= i < |players| ==> players[i].color != c;
      } else if exists i :: 0 <= i < |players| && players[i].color == c {
        var i :| 0 <= i < |players| && players[i].color == c;
        assert players[1..][i - 1].color == c;
      }
    }
  }

  predicate ColorsDistinct(players: seq<Player>)
  {
    forall i, j :: 0 <= i < j < |players| ==> players[i].color != players[j].color
  }

  /** Start of a round for one player: every ship it owns may move and invade again. */
  function ResetShipsForNewTurn(table: ShipTable, c: PlayerColor): (r: ShipTable)
    ensures |r| == |table|
    ensures forall i :: 0 <= i < |r| && table[i].owner == c ==> r[i] == ResetForNewTurn(table[i])
    ensures forall i :: 0 <= i < |r| && table[i].owner != c ==> r[i] == table[i]
  {
    seq(|table|, i requires 0 <= i < |table| =>
      if table[i].owner == c then ResetForNewTurn(table[i]) else table[i])
  }

  /** The command the player planned for `phase` (0, 1 or 2); fails when
      nothing was planned or the plan is too short. */
  function CommandForPhase(p: Player, phase: int): (r: Result<int>)
    ensures p.chosenCommands.None? ==> r == Err(NullReference)
    ensures p.chosenCommands.Some? && !(0 <= phase < |p.chosenCommands.value|) ==> r == Err(IndexOutOfBounds)
    ensures r.Ok? ==> r.value in p.chosenCommands.value
  {
    match p.chosenCommands
    case None => Err(NullReference)
    case Some(cmds) => if 0 <= phase < |cmds| then Ok(cmds[phase]) else Err(IndexOutOfBounds)
  }

  function SetChosenCommands(p: Player, commands: seq<int>): (r: Player)
    ensures r.chosenCommands == Some(commands)
    ensures r.name == p.name && r.color == p.color && r.score == p.score && r.strategy == p.strategy
  {
    p.(chosenCommands := Some(commands))
  }

  /** What was planned is what each phase reads back. */
  lemma PlanReadBack(p: Player, commands: seq<int>, phase: nat)
    requires phase < |commands|
    ensures CommandForPhase(SetChosenCommands(p, commands), phase) == Ok(commands[phase])
  {
  }
}
