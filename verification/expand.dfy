/** The Expand command: the player adds ships from the reserve to systems
    it already controls, up to a quota of `4 - efficiency` ships (fewer when
    the reserve runs short). Each decision names a hex and a number of ships;
    the command ends when the quota is used up or the player controls no
    system any more. */
module ExpandCommand {
  import opened Common
  import opened Ships
  import opened Hexes
  import opened Players
  import opened Boards
  import opened World
  import opened CommandData

  /** Ships an Expand of the given efficiency may add: `4 - efficiency`, but
      never more than the reserve holds. */
  function Quota(table: ShipTable, c: PlayerColor, efficiency: int): (q: int)
    ensures q <= 4 - efficiency && q <= |UnusedShips(table, c)|
    ensures q == 4 - efficiency || q == |UnusedShips(table, c)|
  {
    Min(4 - efficiency, |UnusedShips(table, c)|)
  }

  /** The bookkeeping a new Expand starts with. */
  function Start(table: ShipTable, c: PlayerColor, efficiency: int): (d: ExpandData)
    ensures d.player == c && d.added == 0
    ensures d.tot == Quota(table, c, efficiency)
    ensures efficiency <= 4 ==> QuotaRespected(table, d)
  {
    NewExpandData(c, Quota(table, c, efficiency))
  }

  /** The quota bound the command keeps: what was added stays between zero
      and the quota, and the reserve always holds the ships still allowed. */
  predicate QuotaRespected(table: ShipTable, d: ExpandData)
  {
    0 <= d.added <= d.tot && ShipsCanAdd(d) <= |UnusedShips(table, d.player)|
  }

  /** The hexes offered to the player: the systems it controls. */
  function HexesCanExpand(b: Board, d: ExpandData): (r: seq<Coord>)
    ensures forall c :: c in r <==> c in b.systems && ControlledAt(b, c, d.player)
  {
    SystemsControlledBy(b, d.player)
  }

  /** A decision is accepted for a system hex the player controls and between
      one ship and the number still allowed. */
  predicate CanExpandFleet(b: Board, d: ExpandData, c: Coord, n: int)
  {
    && c in b.cells
    && IsSystem(b.cells[c])
    && Hexes.IsOccupied(b.cells[c])
    && IsControlledBy(b.cells[c], d.player)
    && 1 <= n <= ShipsCanAdd(d)
  }

  /** The command is over: the quota is used up or nothing can receive ships. */
  predicate IsFinished(b: Board, d: ExpandData)
  {
    d.added == d.tot || HexesCanExpand(b, d) == []
  }

  /** On a board whose systems list is right, the hexes accepted are exactly
      the hexes offered. */
  lemma CanExpandFleetIffOffered(b: Board, d: ExpandData, c: Coord, n: int)
    requires SystemsListed(b)
    ensures CanExpandFleet(b, d, c, n) <==> c in HexesCanExpand(b, d) && 1 <= n <= ShipsCanAdd(d)
  {
  }

  /** The decision "add `n` ships on `c`". A refused decision changes
      nothing. An accepted one deploys the first `n` ships of the reserve,
      appends them to the hex and counts them; the reserve running out
      part-way is an index error. */
  function AddShips(b: Board, table: ShipTable, d: ExpandData, c: Coord, n: int)
    : (r: Result<(Board, ShipTable, ExpandData)>)
    ensures !CanExpandFleet(b, d, c, n) ==> r == Ok((b, table, d))
    ensures r.Ok? ==> SameLayout(b, r.value.0) && SameOwners(table, r.value.1)
    ensures CanExpandFleet(b, d, c, n) ==>
      (r.Err? <==> n > |UnusedShips(table, d.player)|) && (r.Err? ==> r.error == IndexOutOfBounds)
    ensures CanExpandFleet(b, d, c, n) && r.Ok? ==>
      && r.value.0 == b.(cells := r.value.0.cells)
      && r.value.0.cells.Keys == b.cells.Keys
      && r.value.0.cells[c].ships == b.cells[c].ships + UnusedShips(table, d.player)[..n]
      && r.value.0.cells[c].controller == b.cells[c].controller
      && (forall c' :: c' in b.cells && c' != c ==> r.value.0.cells[c'] == b.cells[c'])
      && UnusedShips(r.value.1, d.player) == UnusedShips(table, d.player)[n..]
      && (forall c' :: c' != d.player ==> UnusedShips(r.value.1, c') == UnusedShips(table, c'))
      && r.value.2.added == d.added + n && r.value.2.tot == d.tot && r.value.2.player == d.player
  {
    if !CanExpandFleet(b, d, c, n) then Ok((b, table, d))
    else
      var unused := UnusedShips(table, d.player);
      if n > |unused| then Err(IndexOutOfBounds)
      else
        var ids := unused[..n];
        var t := SetDeployedAll(table, ids, true);
        DeployFromReserve(table, d.player, n);
        var h := Hexes.AddShips(b.cells[c], ids, t);
        SameLayoutUpdate(b, c, h);
        SetFlagsKeepOwners(table, ids, true);
        Ok((b.(cells := b.cells[c := h]), t, AddShipsAdded(d, n)))
  }

  /** While the quota bound holds an accepted decision never runs past the
      reserve, and the bound still holds afterwards. */
  lemma QuotaKept(b: Board, table: ShipTable, d: ExpandData, c: Coord, n: int)
    requires QuotaRespected(table, d)
    ensures AddShips(b, table, d, c, n).Ok?
    ensures QuotaRespected(AddShips(b, table, d, c, n).value.1, AddShips(b, table, d, c, n).value.2)
  {
  }

  /** An accepted decision keeps the board consistent: the ships come out of
      the reserve of the hex's controller, so they are on no hex yet and
      belong to the controller. */
  lemma AddShipsConsistent(b: Board, table: ShipTable, d: ExpandData, c: Coord, n: int, players: nat)
    requires Consistent(b, table)
    requires PoolsBuilt(table, players) && ColorIndex(d.player) < players
    requires AddShips(b, table, d, c, n).Ok?
    ensures Consistent(AddShips(b, table, d, c, n).value.0, AddShips(b, table, d, c, n).value.1)
  {
    if CanExpandFleet(b, d, c, n) {
      var ids := UnusedShips(table, d.player)[..n];
      PoolIsOwnedShips(table, players, d.player);
      assert forall i :: 0 <= i < |ids| ==> ids[i] in UnusedShips(table, d.player);
      assert Distinct(ids) by {
        DistinctFilter(Pool(d.player), (s: ShipId) => s < |table| && !table[s].deployed);
      }
      DeployOntoHexPlacement(b.cells, table, c, ids, d.player);
      var t := SetDeployedAll(table, ids, true);
      var h := Hexes.AddShips(b.cells[c], ids, t);
      SameLayoutUpdate(b, c, h);
      LayoutKept(b, b.(cells := b.cells[c := h]));
    }
  }
}
