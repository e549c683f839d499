/** The bookkeeping each of the three commands keeps while it runs: the
    expansion quota and its progress, the explorer's path and fleet in
    transit, and the current invasion. Hexes are named by their position,
    ships by their id. */
module CommandData {
  import opened Common
  import opened Hexes
  import opened Ships

  // ---------------------------------------------------------------------------
  // Expand

  /** `tot` ships may be added in all; `added` have been so far. */
  datatype ExpandData = ExpandData(player: PlayerColor, tot: int, added: int)

  function NewExpandData(player: PlayerColor, shipsCanAdd: int): (d: ExpandData)
    ensures d.player == player && d.tot == shipsCanAdd && d.added == 0
  {
    ExpandData(player, shipsCanAdd, 0)
  }

  function AddShipsAdded(d: ExpandData, n: int): (r: ExpandData)
    ensures r.added == d.added + n
    ensures r.player == d.player && r.tot == d.tot
  {
    d.(added := d.added + n)
  }

  /** Ships the player may still add. */
  function ShipsCanAdd(d: ExpandData): int
  {
    d.tot - d.added
  }

  // ---------------------------------------------------------------------------
  // Explore

  /** The movements allowed and made, the hexes of the movement under way
      (the current hex last) and the ships travelling with it. */
  datatype ExploreData = ExploreData(player: PlayerColor, allowed: int, made: int,
                                     path: seq<Coord>, fleet: seq<ShipId>)

  function NewExploreData(player: PlayerColor, allowed: int): (d: ExploreData)
    ensures d.player == player && d.allowed == allowed && d.made == 0
    ensures d.path == [] && d.fleet == []
  {
    ExploreData(player, allowed, 0, [], [])
  }

  /** `ExploreData.incrementNbFleetMovementsMade`: one more movement is counted. */
  function IncrementMovementsMade(d: ExploreData): (r: ExploreData)
    ensures r.made == d.made + 1
    ensures r == d.(made := r.made)
  {
    d.(made := d.made + 1)
  }

  /** The hex the movement has reached: the end of the path, none before
      the movement starts. */
  function CurHex(d: ExploreData): (r: Option<Coord>)
    ensures r.None? <==> d.path == []
    ensures r.Some? ==> r.value in d.path
  {
    if d.path == [] then None else Some(d.path[|d.path| - 1])
  }

  function AddHexToPath(d: ExploreData, c: Coord): (r: ExploreData)
    ensures r.path == d.path + [c]
    ensures r == d.(path := r.path)
  {
    d.(path := d.path + [c])
  }

  /** A movement starting from `c`: the path is `c` alone. */
  function NewMovementPath(d: ExploreData, c: Coord): (r: ExploreData)
    ensures r.path == [c]
    ensures r == d.(path := r.path)
  {
    d.(path := [c])
  }

  function ClearMovementPath(d: ExploreData): (r: ExploreData)
    ensures r.path == []
    ensures r == d.(path := r.path)
  {
    d.(path := [])
  }

  function ClearFleet(d: ExploreData): (r: ExploreData)
    ensures r.fleet == []
    ensures r == d.(fleet := r.fleet)
  {
    d.(fleet := [])
  }

  /** The current hex follows the path: a new path is at its start, a hex
      added to the path becomes current, and a cleared path has none. */
  lemma CurHexFollowsPath(d: ExploreData, c: Coord)
    ensures CurHex(NewMovementPath(d, c)) == Some(c)
    ensures CurHex(AddHexToPath(d, c)) == Some(c)
    ensures CurHex(ClearMovementPath(d)) == None
    ensures |AddHexToPath(d, c).path| == |d.path| + 1
  {
  }

  // ---------------------------------------------------------------------------
  // Exterminate

  /** The invasions allowed and made; for the invasion under way, the hex
      invaded, the hexes invading it, and the ships used and available. */
  datatype ExterminateData = ExterminateData(player: PlayerColor, possible: int, made: int,
                                             invaded: Option<Coord>, invading: seq<Coord>,
                                             used: int, maxShips: int)

  function NewExterminateData(player: PlayerColor, possible: int): (d: ExterminateData)
    ensures d.player == player && d.possible == possible && d.made == 0
    ensures d.invaded.None? && d.invading == [] && d.used == 0 && d.maxShips == 0
  {
    ExterminateData(player, possible, 0, None, [], 0, 0)
  }

  /** `ExterminateData.incrementNbInvasionsMade`: one more invasion is
      counted; the Exterminate counterpart of `IncrementMovementsMade`. */
  function IncrementInvasionsMade(d: ExterminateData): (r: ExterminateData)
    ensures r.made == d.made + 1
    ensures r == d.(made := r.made)
  {
    d.(made := d.made + 1)
  }

  /** `List.remove(Object)`: the first occurrence of the hex leaves the list. */
  function RemoveInvadingHex(d: ExterminateData, c: Coord): (r: ExterminateData)
    ensures r.invading == RemoveFirst(d.invading, c)
    ensures r == d.(invading := r.invading)
  {
    d.(invading := RemoveFirst(d.invading, c))
  }

  /** The invasion is over: no target and no invading hexes. */
  function ClearInvasion(d: ExterminateData): (r: ExterminateData)
    ensures r.invading == [] && r.invaded.None?
    ensures r == d.(invading := [], invaded := None)
  {
    d.(invading := [], invaded := None)
  }

  predicate IsHexInvading(d: ExterminateData, c: Coord)
  {
    c in d.invading
  }

  /** In a list without repeats, removing a hex takes out that hex and
      nothing else, and keeps the others in order. */
  lemma RemoveInvadingHexOnly(d: ExterminateData, c: Coord)
    requires Distinct(d.invading)
    ensures !IsHexInvading(RemoveInvadingHex(d, c), c)
    ensures forall x :: x != c ==> (IsHexInvading(RemoveInvadingHex(d, c), x) <==> IsHexInvading(d, x))
    ensures |RemoveInvadingHex(d, c).invading| == |d.invading| - (if c in d.invading then 1 else 0)
  {
    var r := RemoveFirst(d.invading, c);
    DistinctMultiplicity(d.invading, c);
    forall x
      ensures x in r <==> (x in d.invading && x != c)
    {
      assert x in r <==> multiset(r)[x] > 0;
      assert x in d.invading <==> multiset(d.invading)[x] > 0;
    }
  }
}
