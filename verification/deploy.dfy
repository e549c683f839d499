/** The deployment phase that opens the game. The players deploy two ships
    each, twice, in snake order (first to last, then last to first), each
    time on a level-1 system of a sector where nobody stands yet; the
    central sector is never offered. After the last deployment the plan
    phase starts. */
module Deploy {
  import opened Common
  import opened Ships
  import opened Players
  import opened Hexes
  import opened Sectors
  import opened Boards
  import opened World
  import opened Game
  import Plan

  /** The number of ships a deployment puts on the chosen system. */
  const SHIPS_PER_DEPLOY := 2

  // ---------------------------------------------------------------------------
  // Who deploys

  /** The position of the player making deployment `k` of `2 * n`. */
  function DeployerIndex(n: int, k: int): int
  {
    Min(k, 2 * n - 1 - k)
  }

  /** Snake order: every deployment is made by one of the players, and each
      player makes exactly two, the `i`-th and the `(2n-1-i)`-th. */
  lemma SnakeOrder(n: nat, k: int, i: int)
    requires 0 <= k < 2 * n && 0 <= i < n
    ensures 0 <= DeployerIndex(n, k) < n
    ensures DeployerIndex(n, k) == i <==> k == i || k == 2 * n - 1 - i
  {
  }

  /** The deployer of the second half mirrors the first: deployments `k`
      and `2n-1-k` are made by the same player. */
  lemma SnakeMirror(n: nat, k: int)
    requires 0 <= k < 2 * n
    ensures DeployerIndex(n, 2 * n - 1 - k) == DeployerIndex(n, k)
  {
  }

  // ---------------------------------------------------------------------------
  // Where to deploy

  /** A system that can be offered: on the board and of level 1. */
  predicate LevelOne(cells: map<Coord, Hex>, c: Coord)
  {
    c in cells && cells[c].level == 1
  }

  /** The level-1 systems of the listed sectors that are neither central nor
      occupied, sector after sector. */
  function OfferedFrom(sectors: seq<Sector>, cells: map<Coord, Hex>): (r: seq<Coord>)
    ensures forall c :: c in r <==>
      exists k :: 0 <= k < |sectors| && !sectors[k].isCentral && !Sectors.IsOccupied(sectors[k], cells)
                  && c in sectors[k].systemHexes && LevelOne(cells, c)
  {
    if sectors == [] then []
    else
      var s := sectors[0];
      var here := if !s.isCentral && !Sectors.IsOccupied(s, cells) then Filter(s.systemHexes, c => LevelOne(cells, c)) else [];
      assert forall c :: c in OfferedFrom(sectors[1..], cells) ==>
        exists k :: 0 <= k < |sectors| && !sectors[k].isCentral && !Sectors.IsOccupied(sectors[k], cells)
                    && c in sectors[k].systemHexes && LevelOne(cells, c) by {
        forall c | c in OfferedFrom(sectors[1..], cells)
          ensures exists k :: 0 <= k < |sectors| && !sectors[k].isCentral && !Sectors.IsOccupied(sectors[k], cells)
                              && c in sectors[k].systemHexes && LevelOne(cells, c)
        {
          var k :| 0 <= k < |sectors[1..]| && !sectors[1..][k].isCentral && !Sectors.IsOccupied(sectors[1..][k], cells)
                   && c in sectors[1..][k].systemHexes && LevelOne(cells, c);
          assert sectors[1..][k] == sectors[k + 1];
        }
      }
      assert forall k :: 1 <= k < |sectors| ==> sectors[k] == sectors[1..][k - 1];
      here + OfferedFrom(sectors[1..], cells)
  }

  /** `getValidInitialDeploymentHexes`: the systems a deployer is offered. */
  function ValidInitialDeploymentHexes(b: Board): (r: seq<Coord>)
    ensures forall c :: c in r ==> LevelOne(b.cells, c) && !Hexes.IsOccupied(b.cells[c])
  {
    var r := OfferedFrom(b.sectors, b.cells);
    assert forall c :: c in r ==> LevelOne(b.cells, c) && !Hexes.IsOccupied(b.cells[c]) by {
      forall c | c in r
        ensures LevelOne(b.cells, c) && !Hexes.IsOccupied(b.cells[c])
      {
        var k :| 0 <= k < |b.sectors| && !b.sectors[k].isCentral && !Sectors.IsOccupied(b.sectors[k], b.cells)
                 && c in b.sectors[k].systemHexes && LevelOne(b.cells, c);
        var j :| 0 <= j < |b.sectors[k].systemHexes| && b.sectors[k].systemHexes[j] == c;
      }
    }
    r
  }

  /** `canInitDeploy`: the system exists, is of level 1 and free, and lies
      in a sector none of whose systems is occupied. A hex the board maps
      to no sector (a hex of the central sector, or no system at all) is
      refused. */
  predicate CanInitDeploy(b: Board, c: Coord)
  {
    && LevelOne(b.cells, c)
    && !Hexes.IsOccupied(b.cells[c])
    && match SectorContainingHex(b, c)
       case None => false
       case Some(k) => 0 <= k < |b.sectors| && !Sectors.IsOccupied(b.sectors[k], b.cells)
  }

  /** The systems offered are exactly those a deployment accepts. */
  lemma CanInitDeployIffOffered(b: Board, c: Coord)
    requires SectorsIndexed(b)
    ensures CanInitDeploy(b, c) <==> c in ValidInitialDeploymentHexes(b)
  {
    if c in ValidInitialDeploymentHexes(b) {
      var k :| 0 <= k < |b.sectors| && !b.sectors[k].isCentral && !Sectors.IsOccupied(b.sectors[k], b.cells)
               && c in b.sectors[k].systemHexes && LevelOne(b.cells, c);
      var j :| 0 <= j < |b.sectors[k].systemHexes| && b.sectors[k].systemHexes[j] == c;
      assert b.sectorOf[c] == k;
    }
    if CanInitDeploy(b, c) {
      var k := b.sectorOf[c];
      assert !b.sectors[k].isCentral && c in b.sectors[k].systemHexes;
    }
  }

  // ---------------------------------------------------------------------------
  // The phase

  /** `DeployState.execute`: while deployments are left, the player whose
      turn it is in snake order is asked for a system among those offered;
      afterwards the plan phase starts with its first player. A negative
      counter names no player. */
  function Run(g: Game): (r: Result<Outcome>)
    requires g.state.Deploying?
    ensures var n := |g.players|; var k := g.state.deployCounter;
      0 <= k < 2 * n ==>
        r.Ok? && r.value.game == g.(current := Some(g.players[DeployerIndex(n, k)].color))
        && r.value.prompt == ChooseDeployHex(g.players[DeployerIndex(n, k)].color, ValidInitialDeploymentHexes(g.board))
    ensures g.state.deployCounter < 0 ==> r == Err(IndexOutOfBounds)
    ensures g.state.deployCounter >= 2 * |g.players| ==> r == Plan.Run(Plan.StartPlanning(g))
  {
    var n := |g.players|;
    var k := g.state.deployCounter;
    if k < 2 * n then
      match SetCurrentPlayer(g, DeployerIndex(n, k))
      case Err(e) => Err(e)
      case Ok(g1) =>
        var c := g.players[DeployerIndex(n, k)].color;
        Ok(Outcome(g1, ChooseDeployHex(c, ValidInitialDeploymentHexes(g.board))))
    else
      Plan.Run(Plan.StartPlanning(g))
  }

  /** The two ships of a deployment: the first two of `p`'s reserve are
      marked deployed and put on the system `c`. The reserve loses exactly
      those two, the other reserves and the other hexes do not change. */
  function DeployTwo(b: Board, table: ShipTable, c: Coord, p: PlayerColor): (r: (Board, ShipTable))
    requires c in b.cells && |UnusedShips(table, p)| >= SHIPS_PER_DEPLOY
    ensures SameLayout(b, r.0) && SameOwners(table, r.1)
    ensures forall c' :: c' in b.cells && c' != c ==> r.0.cells[c'] == b.cells[c']
    ensures r.0.cells[c].ships == b.cells[c].ships + UnusedShips(table, p)[..SHIPS_PER_DEPLOY]
    ensures Hexes.IsOccupied(r.0.cells[c])
    ensures UnusedShips(r.1, p) == UnusedShips(table, p)[SHIPS_PER_DEPLOY..]
    ensures forall p' :: p' != p ==> UnusedShips(r.1, p') == UnusedShips(table, p')
  {
    var unused := UnusedShips(table, p);
    var ids := unused[..SHIPS_PER_DEPLOY];
    var t := SetDeployedAll(table, ids, true);
    assert ValidIds(t, ids) by {
      assert forall i :: 0 <= i < |ids| ==> ids[i] in unused;
    }
    var h := Hexes.AddShips(b.cells[c], ids, t);
    DeployFromReserve(table, p, SHIPS_PER_DEPLOY);
    SetFlagsKeepOwners(table, ids, true);
    SameLayoutUpdate(b, c, h);
    (b.(cells := b.cells[c := h]), t)
  }

  /** The deployment itself: two ships of `p` go on the system `c`, its
      sector is recorded as occupied and the counter moves on. A reserve of
      fewer than two ships fails on the missing ship. */
  function Place(g: Game, c: Coord, p: PlayerColor): (r: Result<Game>)
    requires g.state.Deploying? && CanInitDeploy(g.board, c)
    ensures r.Err? <==> |UnusedShips(g.table, p)| < SHIPS_PER_DEPLOY
    ensures r.Err? ==> r.error == IndexOutOfBounds
    ensures r.Ok? ==>
      && r.value.state == Deploying(g.state.deployCounter + 1, g.state.occupiedSectors + [g.board.sectorOf[c]])
      && r.value.players == g.players && r.value.turn == g.turn && r.value.current == g.current
      && (r.value.board, r.value.table) == DeployTwo(g.board, g.table, c, p)
  {
    if |UnusedShips(g.table, p)| < SHIPS_PER_DEPLOY then Err(IndexOutOfBounds)
    else
      var (b', t) := DeployTwo(g.board, g.table, c, p);
      Ok(g.(board := b', table := t,
            state := Deploying(g.state.deployCounter + 1, g.state.occupiedSectors + [g.board.sectorOf[c]])))
  }

  /** `DeployState.deployShips`: a system that cannot be deployed on is
      refused and nothing changes; otherwise the current player deploys
      there and the phase goes on. Without a current player there is
      nobody to take ships from. */
  function DeployShips(g: Game, c: Coord): (r: Result<Option<Outcome>>)
    requires g.state.Deploying?
    ensures !CanInitDeploy(g.board, c) ==> r == Ok(None)
    ensures CanInitDeploy(g.board, c) && g.current.None? ==> r == Err(NullReference)
    ensures CanInitDeploy(g.board, c) && g.current.Some? && |UnusedShips(g.table, g.current.value)| < SHIPS_PER_DEPLOY ==>
      r == Err(IndexOutOfBounds)
    ensures r == Ok(None) ==> !CanInitDeploy(g.board, c)
  {
    if !CanInitDeploy(g.board, c) then Ok(None)
    else
      match g.current
      case None => Err(NullReference)
      case Some(p) =>
        match Place(g, c, p)
        case Err(e) => Err(e)
        case Ok(g1) =>
          match Run(g1)
          case Err(e) => Err(e)
          case Ok(o) => Ok(Some(o))
  }

  // ---------------------------------------------------------------------------
  // What a deployment keeps

  /** A deployment keeps the board consistent with the ship table: the two
      ships come out of `p`'s own reserve, so they stand nowhere yet and
      belong to `p`, who controls the system afterwards if it was free. */
  lemma DeployTwoConsistent(b: Board, table: ShipTable, c: Coord, p: PlayerColor, n: nat)
    requires Consistent(b, table) && PoolsBuilt(table, n) && ColorIndex(p) < n
    requires c in b.cells && |UnusedShips(table, p)| >= SHIPS_PER_DEPLOY
    requires !Hexes.IsOccupied(b.cells[c])
    ensures Consistent(DeployTwo(b, table, c, p).0, DeployTwo(b, table, c, p).1)
    ensures IsControlledBy(DeployTwo(b, table, c, p).0.cells[c], p)
  {
    var ids := UnusedShips(table, p)[..SHIPS_PER_DEPLOY];
    PoolIsOwnedShips(table, n, p);
    assert forall i :: 0 <= i < |ids| ==> ids[i] in UnusedShips(table, p);
    assert Distinct(ids) by {
      DistinctFilter(Pool(p), (s: ShipId) => s < |table| && !table[s].deployed);
    }
    DeployOntoHexPlacement(b.cells, table, c, ids, p);
    var t := SetDeployedAll(table, ids, true);
    var h := Hexes.AddShips(b.cells[c], ids, t);
    assert DeployTwo(b, table, c, p) == (b.(cells := b.cells[c := h]), t);
    LayoutKept(b, b.(cells := b.cells[c := h]));
  }

  /** A deployment keeps the board consistent with the ship table and keeps
      the roster, and the deployer controls the chosen system. */
  lemma {:induction false} PlaceConsistent(g: Game, c: Coord, p: PlayerColor)
    requires g.state.Deploying? && CanInitDeploy(g.board, c)
    requires Consistent(g.board, g.table) && Roster(g.players, g.table) && ColorIndex(p) < |g.players|
    requires Place(g, c, p).Ok?
    ensures var g' := Place(g, c, p).value;
      Consistent(g'.board, g'.table) && Roster(g'.players, g'.table) && IsControlledBy(g'.board.cells[c], p)
  {
    DeployTwoConsistent(g.board, g.table, c, p, |g.players|);
    RosterSameOwners(g.players, g.table, Place(g, c, p).value.table);
  }

  /** The sectors recorded as occupied are distinct sectors of the board,
      each with an occupied system. */
  predicate SectorsRecorded(g: Game)
    requires g.state.Deploying?
  {
    var occupied := g.state.occupiedSectors;
    && Distinct(occupied)
    && forall i :: 0 <= i < |occupied| ==>
         0 <= occupied[i] < |g.board.sectors| && Sectors.IsOccupied(g.board.sectors[occupied[i]], g.board.cells)
  }

  /** A deployment closes the sector it was made in: the sector is now
      occupied, none of its systems can be deployed on any more, and it is
      recorded once. */
  lemma {:induction false} PlaceClosesSector(g: Game, c: Coord, p: PlayerColor)
    requires g.state.Deploying? && CanInitDeploy(g.board, c) && SectorsIndexed(g.board)
    requires Place(g, c, p).Ok?
    ensures var g' := Place(g, c, p).value; var k := g.board.sectorOf[c];
      && SectorsIndexed(g'.board)
      && Sectors.IsOccupied(g'.board.sectors[k], g'.board.cells)
      && forall c' :: c' in g.board.sectorOf && g.board.sectorOf[c'] == k ==> !CanInitDeploy(g'.board, c')
    ensures SectorsRecorded(g) ==> SectorsRecorded(Place(g, c, p).value)
  {
    var g' := Place(g, c, p).value;
    var k := g.board.sectorOf[c];
    var s := g.board.sectors[k];
    assert g'.board.sectors == g.board.sectors && g'.board.sectorOf == g.board.sectorOf;
    var j :| 0 <= j < |s.systemHexes| && s.systemHexes[j] == c;
    assert Sectors.IsOccupied(g'.board.sectors[k], g'.board.cells);
    if SectorsRecorded(g) {
      var occupied := g.state.occupiedSectors;
      assert k !in occupied by {
        assert forall i :: 0 <= i < |occupied| ==> occupied[i] != k;
      }
      var occupied' := occupied + [k];
      forall i | 0 <= i < |occupied'|
        ensures 0 <= occupied'[i] < |g'.board.sectors| && Sectors.IsOccupied(g'.board.sectors[occupied'[i]], g'.board.cells)
      {
        if i < |occupied| {
          var s' := g.board.sectors[occupied[i]];
          var j' :| 0 <= j' < |s'.systemHexes| && s'.systemHexes[j'] in g.board.cells
                    && Hexes.IsOccupied(g.board.cells[s'.systemHexes[j']]);
          assert s'.systemHexes[j'] != c;
        }
      }
    }
  }
}
