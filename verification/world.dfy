/** The board and the ship table together, and the consistency rule the
    commands keep between them. The layout of the board (which hexes exist,
    where, at which level, with which neighbours) never changes after
    generation; what changes is where the ships stand. The placement rule:
    every hex is sound (controlled exactly when ships are on it, by the owner
    of those ships), every ship standing on a hex is marked deployed, and no
    ship stands on two hexes. */
module World {
  import opened Common
  import opened Ships
  import opened Hexes
  import opened Grid
  import opened Boards

  // ---------------------------------------------------------------------------
  // The placement rule

  /** Every ship listed on a hex exists and is marked deployed. */
  predicate OnBoardDeployed(cells: map<Coord, Hex>, table: ShipTable)
  {
    forall c, i :: c in cells && 0 <= i < |cells[c].ships| ==>
      cells[c].ships[i] < |table| && table[cells[c].ships[i]].deployed
  }

  predicate AllSound(cells: map<Coord, Hex>, table: ShipTable)
  {
    forall c :: c in cells ==> Sound(cells[c], table)
  }

  /** No ship stands on two hexes. */
  predicate PlacedOnce(cells: map<Coord, Hex>)
  {
    forall c, c', s :: c in cells && c' in cells && s in cells[c].ships && s in cells[c'].ships ==> c == c'
  }

  /** A ship that stands on no hex of the board. */
  predicate OffBoard(cells: map<Coord, Hex>, s: ShipId)
  {
    forall c :: c in cells ==> s !in cells[c].ships
  }

  predicate Placement(cells: map<Coord, Hex>, table: ShipTable)
  {
    && ShipsValid(cells, table)
    && AllSound(cells, table)
    && OnBoardDeployed(cells, table)
    && PlacedOnce(cells)
  }

  // ---------------------------------------------------------------------------
  // The layout

  ghost predicate Layout(b: Board)
  {
    Shaped(b) && SystemsListed(b)
  }

  /** The second board differs from the first only in the ships and
      controllers of its hexes. */
  predicate SameLayout(b: Board, b': Board)
  {
    && b' == b.(cells := b'.cells)
    && b'.cells.Keys == b.cells.Keys
    && forall c :: c in b.cells ==>
         && b'.cells[c].pos == b.cells[c].pos
         && b'.cells[c].level == b.cells[c].level
         && b'.cells[c].neighbors == b.cells[c].neighbors
  }

  ghost predicate Consistent(b: Board, table: ShipTable)
  {
    Layout(b) && Placement(b.cells, table)
  }

  /** Changing only ships and controllers keeps the layout. */
  lemma LayoutKept(b: Board, b': Board)
    requires Layout(b) && SameLayout(b, b')
    ensures Layout(b')
  {
    assert b'.order == b.order && b'.systems == b.systems;
    assert forall c :: c in b'.cells <==> c in b.cells;
    forall c | c in b'.cells
      ensures b'.cells[c].pos == b.cells[c].pos && b'.cells[c].neighbors == b.cells[c].neighbors
      ensures IsSystem(b'.cells[c]) <==> IsSystem(b.cells[c])
    {
    }
    assert Shaped(b');
    assert SystemsListed(b');
  }

  lemma SameLayoutTrans(b: Board, b': Board, b'': Board)
    requires SameLayout(b, b') && SameLayout(b', b'')
    ensures SameLayout(b, b'')
  {
  }

  /** Replacing one hex by one at the same position, with the same level
      and neighbours, keeps the layout. */
  lemma SameLayoutUpdate(b: Board, c: Coord, h: Hex)
    requires c in b.cells
    requires h.pos == b.cells[c].pos && h.level == b.cells[c].level && h.neighbors == b.cells[c].neighbors
    ensures SameLayout(b, b.(cells := b.cells[c := h]))
  {
  }

  // ---------------------------------------------------------------------------
  // A new board

  /** A freshly generated board is consistent with any ship table: every
      hex is empty. */
  lemma GenerateConsistent(d: Draw, table: ShipTable)
    requires ValidDraw(d)
    ensures Consistent(Generate(d), table)
  {
    GenerateShaped(d);
    GenerateSystemsListed(d);
    EmptyBoardPlacement(Generate(d).cells, table);
  }

  /** Hexes of non-negative levels with no ship on them satisfy the
      placement rule. */
  lemma EmptyBoardPlacement(cells: map<Coord, Hex>, table: ShipTable)
    requires forall c :: c in cells ==> cells[c].ships == [] && !Hexes.IsOccupied(cells[c]) && cells[c].level >= 0
    ensures Placement(cells, table)
  {
  }

  // ---------------------------------------------------------------------------
  // Changing the ship table

  lemma SoundSameOwners(h: Hex, table: ShipTable, t: ShipTable)
    requires Sound(h, table) && SameOwners(table, t)
    ensures Sound(h, t)
  {
  }

  /** Changing flags in the table keeps the placement rule as long as every
      ship on a hex stays deployed. */
  lemma TableChangePlacement(cells: map<Coord, Hex>, table: ShipTable, t: ShipTable)
    requires Placement(cells, table) && SameOwners(table, t)
    requires forall c, i :: c in cells && 0 <= i < |cells[c].ships| ==> t[cells[c].ships[i]].deployed
    ensures Placement(cells, t)
  {
    forall c | c in cells
      ensures Sound(cells[c], t)
    {
      SoundSameOwners(cells[c], table, t);
    }
  }

  /** New ships appended to the table, all in the reserve, keep the
      placement rule: no hex names them. */
  lemma TableGrowPlacement(cells: map<Coord, Hex>, table: ShipTable, extra: ShipTable)
    requires Placement(cells, table)
    ensures Placement(cells, table + extra)
  {
    var t := table + extra;
    forall c | c in cells
      ensures Sound(cells[c], t)
    {
      assert forall i :: 0 <= i < |cells[c].ships| ==> t[cells[c].ships[i]] == table[cells[c].ships[i]];
    }
  }

  /** A ship in the reserve stands on no hex. */
  lemma ReserveIsOffBoard(cells: map<Coord, Hex>, table: ShipTable, s: ShipId)
    requires OnBoardDeployed(cells, table)
    requires s < |table| && !table[s].deployed
    ensures OffBoard(cells, s)
  {
    forall c, i | c in cells && 0 <= i < |cells[c].ships|
      ensures cells[c].ships[i] != s
    {
    }
  }

  /** Flags of ships that stand on no hex can be changed freely. */
  lemma OffBoardFlagsPlacement(cells: map<Coord, Hex>, table: ShipTable, t: ShipTable)
    requires Placement(cells, table) && SameOwners(table, t)
    requires forall id :: 0 <= id < |table| && t[id] != table[id] ==> OffBoard(cells, id)
    ensures Placement(cells, t)
  {
    forall c, i | c in cells && 0 <= i < |cells[c].ships|
      ensures t[cells[c].ships[i]].deployed
    {
      var id := cells[c].ships[i];
      assert !OffBoard(cells, id) by {
        assert id in cells[c].ships;
      }
    }
    TableChangePlacement(cells, table, t);
  }

  // ---------------------------------------------------------------------------
  // Ships leaving and landing on a hex

  /** Ships leaving a hex keep the placement rule; afterwards those that
      were on it stand on no hex, and ships standing nowhere still do. */
  lemma LeaveHexPlacement(cells: map<Coord, Hex>, table: ShipTable, c: Coord, ss: seq<ShipId>)
    requires Placement(cells, table) && c in cells
    ensures Placement(cells[c := Hexes.RemoveShips(cells[c], ss)], table)
    ensures forall s :: s in ss && s in cells[c].ships ==> OffBoard(cells[c := Hexes.RemoveShips(cells[c], ss)], s)
    ensures forall s :: OffBoard(cells, s) ==> OffBoard(cells[c := Hexes.RemoveShips(cells[c], ss)], s)
  {
    var h := cells[c];
    var h' := Hexes.RemoveShips(h, ss);
    RemoveShipsSound(h, ss, table);
    assert forall s :: s in h'.ships ==> s in h.ships;
  }

  /** Ships taken off a hex and sent back to the reserve keep the placement
      rule. */
  lemma ReturnToReservePlacement(cells: map<Coord, Hex>, table: ShipTable, c: Coord, ids: seq<ShipId>)
    requires Placement(cells, table) && c in cells
    requires forall s :: s in ids ==> s in cells[c].ships
    ensures Placement(cells[c := Hexes.RemoveShips(cells[c], ids)], SetDeployedAll(table, ids, false))
  {
    LeaveHexPlacement(cells, table, c, ids);
    OffBoardFlagsPlacement(cells[c := Hexes.RemoveShips(cells[c], ids)], table, SetDeployedAll(table, ids, false));
  }

  /** Deployed ships of one owner that stand on no hex and land together on
      a hex that is free or already that owner's keep the placement rule. */
  lemma LandOnHexPlacement(cells: map<Coord, Hex>, table: ShipTable, c: Coord, ss: seq<ShipId>, owner: PlayerColor)
    requires Placement(cells, table) && c in cells
    requires Hexes.IsOccupied(cells[c]) ==> IsControlledBy(cells[c], owner)
    requires Distinct(ss)
    requires forall i :: 0 <= i < |ss| ==> ss[i] < |table| && table[ss[i]].deployed && table[ss[i]].owner == owner
    requires forall s :: s in ss ==> OffBoard(cells, s)
    ensures ValidIds(table, ss)
    ensures Placement(cells[c := Hexes.AddShips(cells[c], ss, table)], table)
    ensures forall s :: OffBoard(cells, s) && s !in ss ==> OffBoard(cells[c := Hexes.AddShips(cells[c], ss, table)], s)
  {
    var h := cells[c];
    AddShipsSound(h, ss, table);
    var h' := Hexes.AddShips(h, ss, table);
    var cells' := cells[c := h'];
    forall c1, i | c1 in cells' && 0 <= i < |cells'[c1].ships|
      ensures cells'[c1].ships[i] < |table| && table[cells'[c1].ships[i]].deployed
    {
      if c1 == c && i >= |h.ships| {
        assert h'.ships[i] in ss;
      }
    }
    forall c1, c2, s | c1 in cells' && c2 in cells' && s in cells'[c1].ships && s in cells'[c2].ships
      ensures c1 == c2
    {
      if s in ss {
        assert OffBoard(cells, s);
      }
    }
  }

  /** Deployed ships of one owner that leave a hex together and land on
      another hex, free or already that owner's, keep the placement rule. */
  lemma MoveShipsPlacement(cells: map<Coord, Hex>, table: ShipTable, src: Coord, tgt: Coord, ss: seq<ShipId>,
                           owner: PlayerColor)
    requires Placement(cells, table) && src in cells && tgt in cells && src != tgt
    requires Hexes.IsOccupied(cells[tgt]) ==> IsControlledBy(cells[tgt], owner)
    requires Distinct(ss) && forall s :: s in ss ==> s in cells[src].ships
    requires forall i :: 0 <= i < |ss| ==> ss[i] < |table| && table[ss[i]].deployed && table[ss[i]].owner == owner
    ensures ValidIds(table, ss)
    ensures var cells1 := cells[src := Hexes.RemoveShips(cells[src], ss)];
      Placement(cells1[tgt := Hexes.AddShips(cells1[tgt], ss, table)], table)
  {
    LeaveHexPlacement(cells, table, src, ss);
    var cells1 := cells[src := Hexes.RemoveShips(cells[src], ss)];
    assert cells1[tgt] == cells[tgt];
    LandOnHexPlacement(cells1, table, tgt, ss, owner);
  }

  /** Ships taken out of the reserve and put on a hex that is free or
      already their owner's keep the placement rule. */
  lemma DeployOntoHexPlacement(cells: map<Coord, Hex>, table: ShipTable, c: Coord, ids: seq<ShipId>, owner: PlayerColor)
    requires Placement(cells, table) && c in cells
    requires Hexes.IsOccupied(cells[c]) ==> IsControlledBy(cells[c], owner)
    requires Distinct(ids)
    requires forall i :: 0 <= i < |ids| ==> ids[i] < |table| && !table[ids[i]].deployed && table[ids[i]].owner == owner
    ensures ValidIds(SetDeployedAll(table, ids, true), ids)
    ensures Placement(cells[c := Hexes.AddShips(cells[c], ids, SetDeployedAll(table, ids, true))],
                      SetDeployedAll(table, ids, true))
  {
    var t := SetDeployedAll(table, ids, true);
    forall s | s in ids
      ensures OffBoard(cells, s)
    {
      ReserveIsOffBoard(cells, table, s);
    }
    OffBoardFlagsPlacement(cells, table, t);
    LandOnHexPlacement(cells, t, c, ids, owner);
  }

  // ---------------------------------------------------------------------------
  // End of round

  /** Trimming every hex to its capacity keeps the board consistent with the
      ship table: the layout is untouched, every hex stays sound, the ships
      left on a hex are still deployed, and the ships that left stand nowhere. */
  lemma RemoveUnsustainableShipsConsistent(b: Board, table: ShipTable)
    requires Consistent(b, table)
    ensures Shaped(b) && ShipsValid(b.cells, table)
    ensures Consistent(Boards.RemoveUnsustainableShips(b, table).0, Boards.RemoveUnsustainableShips(b, table).1)
  {
    var r := Boards.RemoveUnsustainableShips(b, table);
    assert SameLayout(b, r.0);
    LayoutKept(b, r.0);
    TrimPlacement(b.cells, b.order, table, r.0.cells, r.1);
  }

  /** The placement rule survives trimming the listed hexes. */
  lemma TrimPlacement(cells: map<Coord, Hex>, order: seq<Coord>, table: ShipTable, cells': map<Coord, Hex>, t: ShipTable)
    requires Placement(cells, table)
    requires cells'.Keys == cells.Keys
    requires forall c :: c in cells ==> cells'[c] == cells[c].(ships := cells[c].ships[Excess(cells[c])..])
    requires |t| == |table| && forall id :: 0 <= id < |table| ==> t[id] == Returned(cells, order, table, id)
    ensures Placement(cells', t)
  {
    forall c | c in cells'
      ensures Sound(cells'[c], t)
    {
      SoundSuffix(cells[c], table, t, Excess(cells[c]));
    }
    forall c, i | c in cells' && 0 <= i < |cells'[c].ships|
      ensures cells'[c].ships[i] < |t| && t[cells'[c].ships[i]].deployed
    {
      var k := Excess(cells[c]) + i;
      assert cells'[c].ships[i] == cells[c].ships[k];
      StaysNotInExcess(cells, order, table, c, k);
    }
    forall c, c2, s | c in cells' && c2 in cells' && s in cells'[c].ships && s in cells'[c2].ships
      ensures c == c2
    {
      assert s in cells[c].ships && s in cells[c2].ships;
    }
  }

  /** A ship standing past the excess of its hex is in no hex's excess: it
      stands on no other hex, and it stands only once on its own. */
  lemma StaysNotInExcess(cells: map<Coord, Hex>, order: seq<Coord>, table: ShipTable, c: Coord, k: nat)
    requires AllSound(cells, table) && PlacedOnce(cells)
    requires c in cells && Excess(cells[c]) <= k < |cells[c].ships|
    ensures !InExcess(cells, order, cells[c].ships[k])
  {
    var id := cells[c].ships[k];
    forall c2 | c2 in cells && c2 in order
      ensures id !in cells[c2].ships[..Excess(cells[c2])]
    {
      var front := cells[c2].ships[..Excess(cells[c2])];
      if c2 == c {
        assert Distinct(cells[c].ships);
        forall j | 0 <= j < |front|
          ensures front[j] != id
        {
          assert front[j] == cells[c].ships[j];
        }
      } else {
        assert id in cells[c].ships;
        assert id !in cells[c2].ships;
        assert forall x :: x in front ==> x in cells[c2].ships;
      }
    }
  }

  // ---------------------------------------------------------------------------
  // Neighbours

  /** The neighbours a hex lists are hexes of the board. */
  lemma NeighborsOnBoard(b: Board, c: Coord, n: Coord)
    requires Shaped(b) && c in b.cells && n in b.cells[c].neighbors
    ensures n in b.cells
  {
    MergedNeighborsLive(c);
  }
}
