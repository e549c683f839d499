/** A hex of the board: its position, its system level (0 for an empty hex,
    1 or 2 for a system, 3 for the Tri-Prime), the player controlling it, the
    ships on it and the positions of its neighbours.

    The controller follows the ships: the first ship to arrive on an
    unoccupied hex gives it its owner as controller, and the hex becomes
    uncontrolled again when the last ship leaves through a removal. */
module Hexes {
  import opened Common
  import opened Ships

  datatype Coord = Coord(x: int, y: int)

  datatype Hex = Hex(pos: Coord, level: int, controller: Option<PlayerColor>,
                     ships: seq<ShipId>, neighbors: set<Coord>)

  /** A hex as the grid creates it: level 0, nobody on it, no neighbours yet. */
  function NewHex(pos: Coord): (h: Hex)
    ensures h.pos == pos && h.level == 0 && h.ships == [] && h.neighbors == {}
    ensures !IsOccupied(h) && !IsSystem(h) && !IsTriPrime(h)
  {
    Hex(pos, 0, None, [], {})
  }

  predicate IsOccupied(h: Hex)
  {
    h.controller.Some?
  }

  predicate IsControlledBy(h: Hex, c: PlayerColor)
  {
    h.controller == Some(c)
  }

  predicate IsSystem(h: Hex)
  {
    h.level > 0
  }

  /** The Tri-Prime flag is set exactly when the level is set to 3. */
  predicate IsTriPrime(h: Hex)
  {
    h.level == 3
  }

  function SetSystem(h: Hex, level: int): (r: Hex)
    ensures r.level == level
    ensures IsTriPrime(r) <==> level == 3
    ensures IsSystem(r) <==> level > 0
    ensures r.pos == h.pos && r.controller == h.controller && r.ships == h.ships && r.neighbors == h.neighbors
  {
    h.(level := level)
  }

  /** Ships a hex sustains at the end of a round. */
  function EndRoundCapacity(h: Hex): int
  {
    h.level + 1
  }

  /** The hex's consistency rule: it is controlled exactly when ships are on
      it, every ship on it exists and belongs to the controller, and no ship
      is listed twice. */
  predicate Sound(h: Hex, table: ShipTable)
  {
    && (h.controller.None? <==> h.ships == [])
    && Distinct(h.ships)
    && (forall i :: 0 <= i < |h.ships| ==> h.ships[i] < |table| && h.controller == Some(table[h.ships[i]].owner))
  }

  // ---------------------------------------------------------------------------
  // Ship lists

  function UnmovedShips(h: Hex, table: ShipTable): (r: seq<ShipId>)
    ensures forall s :: s in r <==> s in h.ships && s < |table| && !table[s].hasMoved
    ensures |r| <= |h.ships|
  {
    Filter(h.ships, (s: ShipId) => s < |table| && !table[s].hasMoved)
  }

  function UninvadedShips(h: Hex, table: ShipTable): (r: seq<ShipId>)
    ensures forall s :: s in r <==> s in h.ships && s < |table| && !table[s].hasInvaded
    ensures |r| <= |h.ships|
  {
    Filter(h.ships, (s: ShipId) => s < |table| && !table[s].hasInvaded)
  }

  // ---------------------------------------------------------------------------
  // Adding and removing ships

  /** A ship arrives: it goes at the end of the list, and on an unoccupied hex
      its owner takes control. */
  function AddShip(h: Hex, s: ShipId, owner: PlayerColor): (r: Hex)
    ensures r.ships == h.ships + [s]
    ensures IsOccupied(h) ==> r.controller == h.controller
    ensures !IsOccupied(h) ==> IsControlledBy(r, owner)
    ensures r.pos == h.pos && r.level == h.level && r.neighbors == h.neighbors
  {
    var r := h.(ships := h.ships + [s]);
    if IsOccupied(h) then r else r.(controller := Some(owner))
  }

  /** Several ships arrive together; nothing happens for an empty list. */
  function AddShips(h: Hex, ss: seq<ShipId>, table: ShipTable): (r: Hex)
    requires ValidIds(table, ss)
    ensures r.ships == h.ships + ss
    ensures ss == [] ==> r == h
    ensures IsOccupied(h) ==> r.controller == h.controller
    ensures !IsOccupied(h) && ss != [] ==> IsControlledBy(r, table[ss[0]].owner)
    ensures r.pos == h.pos && r.level == h.level && r.neighbors == h.neighbors
  {
    if ss == [] then h
    else
      var r := h.(ships := h.ships + ss);
      if IsOccupied(h) then r else r.(controller := Some(table[ss[0]].owner))
  }

  /** The first occurrence of the ship leaves; a hex left empty loses its controller. */
  function RemoveShip(h: Hex, s: ShipId): (r: Hex)
    ensures r.ships == RemoveFirst(h.ships, s)
    ensures r.ships == [] ==> !IsOccupied(r)
    ensures r.ships != [] ==> r.controller == h.controller
    ensures r.pos == h.pos && r.level == h.level && r.neighbors == h.neighbors
  {
    var r := h.(ships := RemoveFirst(h.ships, s));
    if r.ships == [] then r.(controller := None) else r
  }

  /** Every listed ship leaves; nothing happens for an empty list; a hex left
      empty loses its controller. */
  function RemoveShips(h: Hex, ss: seq<ShipId>): (r: Hex)
    ensures ss == [] ==> r == h
    ensures ss != [] ==> r.ships == RemoveAll(h.ships, ss)
    ensures ss != [] && r.ships == [] ==> !IsOccupied(r)
    ensures r.ships != [] ==> r.controller == h.controller
    ensures r.pos == h.pos && r.level == h.level && r.neighbors == h.neighbors
  {
    if ss == [] then h
    else
      var r := h.(ships := RemoveAll(h.ships, ss));
      if r.ships == [] then r.(controller := None) else r
  }

  /** Adding a batch of ships is adding them one at a time. */
  lemma {:induction false} AddShipsOneByOne(h: Hex, ss: seq<ShipId>, table: ShipTable)
    requires ValidIds(table, ss)
    ensures AddShips(h, ss, table) == AddEach(h, ss, table)
    decreases |ss|
  {
    if ss != [] {
      var h1 := AddShip(h, ss[0], table[ss[0]].owner);
      assert ValidIds(table, ss[1..]);
      AddShipsOneByOne(h1, ss[1..], table);
      assert h1.ships + ss[1..] == h.ships + ss;
      if ss[1..] != [] {
        assert IsOccupied(h1);
      }
    }
  }

  /** Repeated `AddShip`, the reference for `AddShips`. */
  function AddEach(h: Hex, ss: seq<ShipId>, table: ShipTable): Hex
    requires ValidIds(table, ss)
    decreases |ss|
  {
    if ss == [] then h
    else
      assert ValidIds(table, ss[1..]);
      AddEach(AddShip(h, ss[0], table[ss[0]].owner), ss[1..], table)
  }

  /** Removing what was just added, one ship at a time, gives the hex back. */
  lemma AddThenRemove(h: Hex, s: ShipId, owner: PlayerColor)
    requires s !in h.ships
    requires IsOccupied(h) <==> h.ships != []
    ensures RemoveShip(AddShip(h, s, owner), s) == h
  {
    RemoveFirstAbsentLast(h.ships, s);
  }

  lemma {:induction false} RemoveFirstAbsentLast<T>(s: seq<T>, x: T)
    requires x !in s
    ensures RemoveFirst(s + [x], x) == s
  {
    if s != [] {
      assert (s + [x])[0] == s[0];
      assert (s + [x])[1..] == s[1..] + [x];
      RemoveFirstAbsentLast(s[1..], x);
      assert s == [s[0]] + s[1..];
    }
  }

  /** Arrivals keep a hex sound when it is free or already held by the owner
      of the arriving ships. */
  lemma AddShipsSound(h: Hex, ss: seq<ShipId>, table: ShipTable)
    requires Sound(h, table) && ValidIds(table, ss) && Distinct(ss)
    requires forall s :: s in ss ==> s !in h.ships
    requires forall i :: 0 <= i < |ss| ==> table[ss[i]].owner == table[ss[0]].owner
    requires ss != [] && IsOccupied(h) ==> IsControlledBy(h, table[ss[0]].owner)
    ensures Sound(AddShips(h, ss, table), table)
  {
    var r := AddShips(h, ss, table);
    forall i, j | 0 <= i < j < |r.ships|
      ensures r.ships[i] != r.ships[j]
    {
      if j < |h.ships| {
      } else if i >= |h.ships| {
        assert r.ships[i] == ss[i - |h.ships|];
      } else {
        assert r.ships[j] in ss;
      }
    }
  }

  /** Departures keep a hex sound. */
  lemma RemoveShipsSound(h: Hex, ss: seq<ShipId>, table: ShipTable)
    requires Sound(h, table)
    ensures Sound(RemoveShips(h, ss), table)
  {
    if ss != [] {
      var r := RemoveShips(h, ss);
      DistinctFilter(h.ships, x => x !in ss);
      forall i | 0 <= i < |r.ships|
        ensures r.ships[i] < |table| && r.controller == Some(table[r.ships[i]].owner)
      {
        assert r.ships[i] in h.ships;
      }
    }
  }

  // ---------------------------------------------------------------------------
  // End of round: ships beyond the capacity of the hex go back to the reserve

  /** Number of ships above the end-of-round capacity. */
  function Excess(h: Hex): (e: nat)
    ensures e <= |h.ships|
  {
    if |h.ships| > EndRoundCapacity(h) && EndRoundCapacity(h) >= 0 then |h.ships| - EndRoundCapacity(h)
    else if |h.ships| > EndRoundCapacity(h) then |h.ships|
    else 0
  }

  /** Ships are taken from the front of the list (the longest present) and
      go back to their owner's reserve until the capacity is respected. The
      controller is left as it is: with a capacity of at least one ship the
      hex never empties. */
  function RemoveUnsustainableShips(h: Hex, table: ShipTable): (r: (Hex, ShipTable))
    requires h.level >= 0
    requires ValidIds(table, h.ships)
    ensures r.0.ships == h.ships[Excess(h)..]
    ensures r.1 == SetDeployedAll(table, h.ships[..Excess(h)], false)
    ensures |r.0.ships| <= EndRoundCapacity(h)
    ensures r.0.controller == h.controller && r.0.level == h.level
    ensures r.0.pos == h.pos && r.0.neighbors == h.neighbors
    decreases |h.ships|
  {
    if |h.ships| > EndRoundCapacity(h) then
      var s := h.ships[0];
      var t := table[s := SetDeployed(table[s], false)];
      var h1 := h.(ships := h.ships[1..]);
      var e := Excess(h);
      assert Excess(h1) == e - 1;
      assert ValidIds(t, h1.ships);
      var r := RemoveUnsustainableShips(h1, t);
      assert h1.ships[e - 1..] == h.ships[e..];
      assert h1.ships[..e - 1] == h.ships[1..e];
      SetDeployedAllCons(table, h.ships[1..e], s, false);
      assert [s] + h.ships[1..e] == h.ships[..e];
      r
    else
      (h, table)
  }

  lemma SetDeployedAllCons(table: ShipTable, ids: seq<ShipId>, s: ShipId, b: bool)
    requires s < |table|
    ensures SetDeployedAll(table[s := SetDeployed(table[s], b)], ids, b)
         == SetDeployedAll(table, [s] + ids, b)
  {
    var lhs := SetDeployedAll(table[s := SetDeployed(table[s], b)], ids, b);
    var rhs := SetDeployedAll(table, [s] + ids, b);
    forall i | 0 <= i < |lhs|
      ensures lhs[i] == rhs[i]
    {
      assert i in [s] + ids <==> i == s || i in ids;
    }
  }

  /** Trimming keeps the hex sound: it stays controlled and still holds only
      its controller's ships (the ships' owners do not change). */
  lemma RemoveUnsustainableShipsSound(h: Hex, table: ShipTable)
    requires h.level >= 0 && Sound(h, table)
    ensures ValidIds(table, h.ships)
    ensures Sound(RemoveUnsustainableShips(h, table).0, RemoveUnsustainableShips(h, table).1)
  {
    var r := RemoveUnsustainableShips(h, table);
    var e := Excess(h);
    assert r.0 == h.(ships := h.ships[e..]);
    assert forall id :: 0 <= id < |table| ==> r.1[id].owner == table[id].owner;
    SoundSuffix(h, table, r.1, e);
  }

  /** Dropping a proper prefix of the ship list keeps a hex sound, under a
      table that gives every ship the same owner. */
  lemma SoundSuffix(h: Hex, table: ShipTable, t: ShipTable, e: nat)
    requires Sound(h, table)
    requires e <= |h.ships| && (h.ships != [] ==> e < |h.ships|)
    requires |t| == |table| && forall id :: 0 <= id < |table| ==> t[id].owner == table[id].owner
    ensures Sound(h.(ships := h.ships[e..]), t)
  {
    var ships := h.ships[e..];
    forall i | 0 <= i < |ships|
      ensures ships[i] < |t| && h.controller == Some(t[ships[i]].owner)
    {
      assert ships[i] == h.ships[e + i];
    }
    forall i, j | 0 <= i < j < |ships|
      ensures ships[i] != ships[j]
    {
      assert ships[i] == h.ships[e + i] && ships[j] == h.ships[e + j];
    }
  }

  // ---------------------------------------------------------------------------
  // Direction from a hex to one of its neighbours

  /** Offsets of the six neighbours, indexed by direction 0..5; they depend
      on the parity of the column ("odd-q" vertical layout). */
  function Deltas(x: int): (d: seq<(int, int)>)
    ensures |d| == 6
  {
    if x % 2 == 0 then [(1, -1), (0, -1), (-1, -1), (-1, 0), (0, 1), (1, 0)]
    else [(1, 0), (0, -1), (-1, 0), (-1, 1), (0, 1), (1, 1)]
  }

  /** The neighbour of `c` in direction `d`. */
  function Neighbor(c: Coord, d: nat): Coord
    requires d < 6
  {
    Coord(c.x + Deltas(c.x)[d].0, c.y + Deltas(c.x)[d].1)
  }

  /** The direction (0..5) in which `to` lies from `from`, or -1 when `to`
      is not adjacent to `from`. */
  method NeighborDirection(from: Coord, to: Coord) returns (dir: int)
    ensures -1 <= dir < 6
    ensures dir >= 0 ==> to == Neighbor(from, dir)
    ensures dir == -1 <==> forall d :: 0 <= d < 6 ==> to != Neighbor(from, d)
  {
    var deltas := Deltas(from.x);
    var dx, dy := to.x - from.x, to.y - from.y;
    var k := 0;
    while k < |deltas|
      invariant 0 <= k <= |deltas|
      invariant forall d :: 0 <= d < k ==> to != Neighbor(from, d)
    {
      if dx == deltas[k].0 && dy == deltas[k].1 {
        return k;
      }
      k := k + 1;
    }
    return -1;
  }

  /** The six neighbours of a hex are six different hexes, none of them the
      hex itself; so the direction of a neighbour is the one it was reached by. */
  lemma NeighborsDistinct(c: Coord, d: nat, e: nat)
    requires d < 6 && e < 6
    ensures Neighbor(c, d) != c
    ensures Neighbor(c, d) == Neighbor(c, e) <==> d == e
  {
  }

  /** Adjacency goes both ways: stepping in direction `d` and then in the
      opposite direction `(d + 3) % 6` comes back to the start, whatever the
      parity of the two columns. */
  lemma NeighborOpposite(c: Coord, d: nat)
    requires d < 6
    ensures Neighbor(Neighbor(c, d), (d + 3) % 6) == c
  {
    var dx := Deltas(c.x)[d].0;
    assert (c.x + dx) % 2 == 0 <==> (dx == 0) == (c.x % 2 == 0);
  }
}
