/** The board: its hexes keyed by position, its nine sectors, which sector
    each system belongs to, the list of all systems, and the Tri-Prime.
    Generation builds the grid, merges the central block into the Tri-Prime
    and lays out the eight outer sectors; the random draws it depends on
    (the order of the top/bottom cards, the order of the side cards and the
    side cards' mirror bits) are parameters. */
module Boards {
  import opened Common
  import opened Ships
  import opened Hexes
  import opened Grid
  import opened Layout
  import opened Sectors

  /** `order` lists the positions of the grid's row arrays in the order
      the board walks them. */
  datatype Board = Board(cells: map<Coord, Hex>, sectors: seq<Sector>, sectorOf: map<Coord, int>,
                         systems: seq<Coord>, triPrime: Coord, order: seq<Coord>)

  /** The random draws of a generation: the slot of each top/bottom card,
      the sector of each side card and whether each side card is mirrored. */
  datatype Draw = Draw(topBottom: seq<int>, side: seq<int>, mirror: seq<bool>)

  /** The draws a shuffle can produce: both slot lists are arrangements of
      their slots. */
  predicate ValidDraw(d: Draw)
  {
    && |d.topBottom| == 6 && Distinct(d.topBottom)
    && (forall i :: 0 <= i < 6 ==> TopBottomSlot(d.topBottom[i]))
    && |d.side| == 2 && Distinct(d.side)
    && (forall i :: 0 <= i < 2 ==> SideSlot(d.side[i]))
    && |d.mirror| == 2
  }

  /** The sector slot card `i` goes to (cards 0-5 are the top/bottom cards,
      6 and 7 the side cards). */
  function SlotOf(d: Draw, i: nat): (s: int)
    requires ValidDraw(d) && i < 8
    ensures 0 <= s < 9 && s != 4
  {
    if i < 6 then d.topBottom[i] else d.side[i - 6]
  }

  /** The three systems of card `i`, placed. */
  function CardPlacement(d: Draw, i: nat): (r: seq<Coord>)
    requires ValidDraw(d) && i < 8
    ensures |r| == 3
  {
    if i < 6 then PlaceTopBottom(TopBottomCard(i), d.topBottom[i])
    else PlaceSide(SideCard(i - 6), d.side[i - 6], d.mirror[i - 6])
  }

  /** All systems in the order they are created: the Tri-Prime, then the
      three systems of each card in card order. */
  function SystemsList(d: Draw): (r: seq<Coord>)
    requires ValidDraw(d)
    ensures |r| == 25 && r[0] == TRI_PRIME
    ensures forall n :: 1 <= n < 25 ==> r[n] == CardPlacement(d, (n - 1) / 3)[(n - 1) % 3]
  {
    seq(25, n requires 0 <= n < 25 => if n == 0 then TRI_PRIME else CardPlacement(d, (n - 1) / 3)[(n - 1) % 3])
  }

  /** The level each created system is given: 3 for the Tri-Prime, then
      1, 1, 2 for every card. */
  function LevelsList(): (r: seq<int>)
    ensures |r| == 25 && r[0] == 3
    ensures forall n :: 1 <= n < 25 ==> r[n] == CardLevel((n - 1) % 3)
    ensures forall n :: 0 <= n < 25 ==> r[n] > 0
  {
    seq(25, n requires 0 <= n < 25 => if n == 0 then 3 else CardLevel((n - 1) % 3))
  }

  /** The sector index each card system is mapped to. */
  function SectorIdsList(d: Draw): (r: seq<int>)
    requires ValidDraw(d)
    ensures |r| == 24
    ensures forall n :: 0 <= n < 24 ==> r[n] == SlotOf(d, n / 3)
  {
    seq(24, n requires 0 <= n < 24 => SlotOf(d, n / 3))
  }

  /** The eight cards go to eight different slots, none of them the centre. */
  lemma SlotsOfDistinct(d: Draw, i: nat, j: nat)
    requires ValidDraw(d) && i < 8 && j < 8
    ensures TopBottomSlot(SlotOf(d, i)) || SideSlot(SlotOf(d, i))
    ensures SlotOf(d, i) == SlotOf(d, j) ==> i == j
  {
  }

  /** Every placed system is a live hex, inside the band of its card's slot,
      and not the Tri-Prime. */
  lemma PlacementInSlot(d: Draw, i: nat, j: nat)
    requires ValidDraw(d) && i < 8 && j < 3
    ensures InSlot(CardPlacement(d, i)[j], SlotOf(d, i))
    ensures Live(CardPlacement(d, i)[j]) && CardPlacement(d, i)[j] != TRI_PRIME
  {
    CardsUseTheirOffsets();
    if i < 6 {
      PlaceTopBottomCoordLive(TopBottomCard(i)[j], d.topBottom[i]);
    } else {
      PlaceSideCoordLive(SideCard(i - 6)[j], d.side[i - 6], d.mirror[i - 6]);
    }
  }

  /** Two systems of the layout at different positions of the list are
      different hexes: systems of different cards lie in different bands,
      systems of one card come from different offsets. */
  lemma SystemsListDistinct(d: Draw)
    requires ValidDraw(d)
    ensures Distinct(SystemsList(d))
    ensures forall n :: 0 <= n < 25 ==> Live(SystemsList(d)[n])
  {
    var r := SystemsList(d);
    forall n | 1 <= n < 25
      ensures Live(r[n]) && r[n] != TRI_PRIME
    {
      PlacementInSlot(d, (n - 1) / 3, (n - 1) % 3);
    }
    forall n, m | 0 <= n < m < 25
      ensures r[n] != r[m]
    {
      if n > 0 {
        var i, j := (n - 1) / 3, (n - 1) % 3;
        var i', j' := (m - 1) / 3, (m - 1) % 3;
        PlacementInSlot(d, i, j);
        PlacementInSlot(d, i', j');
        SlotsOfDistinct(d, i, i');
        if i == i' {
          CardsDistinct();
          assert j != j';
          if i < 6 {
            PlaceInjective(TopBottomCard(i)[j], TopBottomCard(i)[j'], d.topBottom[i], false);
          } else {
            PlaceInjective(SideCard(i - 6)[j], SideCard(i - 6)[j'], d.side[i - 6], d.mirror[i - 6]);
          }
        } else if r[n] == r[m] {
          SlotsDisjoint(r[n], SlotOf(d, i), SlotOf(d, i'));
        }
      }
    }
  }

  // ---------------------------------------------------------------------------
  // Building the board

  /** Each hex of the merged grid, empty and level 0, with its neighbours. */
  function InitialCells(): (cells: map<Coord, Hex>)
    ensures forall c :: c in cells <==> Live(c)
    ensures forall c :: c in cells ==> cells[c] == NewHex(c).(neighbors := MergedNeighbors(c))
  {
    map c | c in GridOrder() :: NewHex(c).(neighbors := MergedNeighbors(c))
  }

  /** `setSystem` on each listed hex in turn (a later call on the same hex wins). */
  function ApplyLevels(cells: map<Coord, Hex>, coords: seq<Coord>, lvls: seq<int>): (r: map<Coord, Hex>)
    requires |coords| == |lvls|
    requires forall i :: 0 <= i < |coords| ==> coords[i] in cells
    ensures r.Keys == cells.Keys
    ensures forall c :: c in cells && c !in coords ==> r[c] == cells[c]
    ensures forall c :: c in cells ==> r[c] == cells[c].(level := r[c].level)
    decreases |coords|
  {
    if coords == [] then cells
    else
      var c := coords[0];
      ApplyLevels(cells[c := SetSystem(cells[c], lvls[0])], coords[1..], lvls[1..])
  }

  /** When no hex is listed twice, each listed hex ends with its own level. */
  lemma {:induction false} ApplyLevelsDistinct(cells: map<Coord, Hex>, coords: seq<Coord>, lvls: seq<int>)
    requires |coords| == |lvls| && Distinct(coords)
    requires forall i :: 0 <= i < |coords| ==> coords[i] in cells
    ensures forall k :: 0 <= k < |coords| ==> ApplyLevels(cells, coords, lvls)[coords[k]].level == lvls[k]
    decreases |coords|
  {
    if coords != [] {
      var c := coords[0];
      var cells' := cells[c := SetSystem(cells[c], lvls[0])];
      ApplyLevelsDistinct(cells', coords[1..], lvls[1..]);
      assert c !in coords[1..];
      forall k | 1 <= k < |coords|
        ensures ApplyLevels(cells, coords, lvls)[coords[k]].level == lvls[k]
      {
        assert coords[1..][k - 1] == coords[k];
      }
    }
  }

  /** `systemToSectorMap.put` for each listed system in turn. */
  function PutSectors(m: map<Coord, int>, coords: seq<Coord>, ids: seq<int>): (r: map<Coord, int>)
    requires |coords| == |ids|
    ensures r.Keys == m.Keys + set c | c in coords
    ensures forall c :: c in m && c !in coords ==> r[c] == m[c]
    decreases |coords|
  {
    if coords == [] then m
    else PutSectors(m[coords[0] := ids[0]], coords[1..], ids[1..])
  }

  lemma {:induction false} PutSectorsDistinct(m: map<Coord, int>, coords: seq<Coord>, ids: seq<int>)
    requires |coords| == |ids| && Distinct(coords)
    ensures forall k :: 0 <= k < |coords| ==> PutSectors(m, coords, ids)[coords[k]] == ids[k]
    decreases |coords|
  {
    if coords != [] {
      PutSectorsDistinct(m[coords[0] := ids[0]], coords[1..], ids[1..]);
      assert coords[0] !in coords[1..];
      forall k | 1 <= k < |coords|
        ensures PutSectors(m, coords, ids)[coords[k]] == ids[k]
      {
        assert coords[1..][k - 1] == coords[k];
      }
    }
  }

  /** The sector a card creates. */
  function CardSector(d: Draw, i: nat): Sector
    requires ValidDraw(d) && i < 8
  {
    Sector(SlotOf(d, i), CardPlacement(d, i), false, false)
  }

  /** `sectors[slot] = new Sector(...)` for cards `i` to 7 in turn. */
  function AssignSectors(sectors: seq<Sector>, d: Draw, i: nat): (r: seq<Sector>)
    requires ValidDraw(d) && i <= 8
    ensures |r| == |sectors|
    ensures forall k :: 0 <= k < |sectors| && (forall j :: i <= j < 8 ==> SlotOf(d, j) != k) ==> r[k] == sectors[k]
    ensures forall j :: i <= j < 8 && SlotOf(d, j) < |sectors| ==> r[SlotOf(d, j)] == CardSector(d, j)
    decreases 8 - i
  {
    if i == 8 then sectors
    else
      var s := SlotOf(d, i);
      var sectors' := if 0 <= s < |sectors| then sectors[s := CardSector(d, i)] else sectors;
      var r := AssignSectors(sectors', d, i + 1);
      assert forall j :: i < j < 8 ==> SlotOf(d, j) != s by {
        forall j | i < j < 8 { SlotsOfDistinct(d, i, j); }
      }
      r
  }

  /** Cards go to the outer slots only, each to its own. */
  lemma AssignedSectors(sectors: seq<Sector>, d: Draw)
    requires ValidDraw(d) && |sectors| == 9
    ensures AssignSectors(sectors, d, 0)[4] == sectors[4]
    ensures forall i :: 0 <= i < 8 ==> AssignSectors(sectors, d, 0)[SlotOf(d, i)] == CardSector(d, i)
  {
    forall j | 0 <= j < 8
      ensures SlotOf(d, j) != 4 && 0 <= SlotOf(d, j) < 9
    {
      SlotsOfDistinct(d, j, j);
    }
  }

  /** The central sector: the Tri-Prime alone. */
  function CentralSector(): (s: Sector)
    ensures s.id == 4 && s.systemHexes == [TRI_PRIME] && s.isCentral && !s.isScored
  {
    SetIsCentralSector(AddSystemHex(NewSector(4), TRI_PRIME), true)
  }

  /** Nine empty sectors, the central one holding the Tri-Prime. */
  function InitialSectors(): (r: seq<Sector>)
    ensures |r| == 9 && r[4] == CentralSector()
    ensures forall k :: 0 <= k < 9 && k != 4 ==> r[k] == NewSector(k)
  {
    seq(9, k => NewSector(k))[4 := CentralSector()]
  }

  lemma SystemsInInitialCells(d: Draw)
    requires ValidDraw(d)
    ensures forall n :: 0 <= n < |SystemsList(d)| ==> SystemsList(d)[n] in InitialCells()
  {
    SystemsListDistinct(d);
  }

  /** The sector of every card system. */
  function SectorMap(d: Draw): map<Coord, int>
    requires ValidDraw(d)
  {
    PutSectors(map[], SystemsList(d)[1..], SectorIdsList(d))
  }

  /** Generates the board for the given draws. */
  function Generate(d: Draw): (b: Board)
    requires ValidDraw(d)
    ensures b.triPrime == TRI_PRIME && b.systems == SystemsList(d)
    ensures |b.sectors| == 9
  {
    var systems := SystemsList(d);
    SystemsInInitialCells(d);
    var cells := ApplyLevels(InitialCells(), systems, LevelsList());
    var sectors := AssignSectors(InitialSectors(), d, 0);
    var sectorOf := SectorMap(d);
    Board(cells, sectors, sectorOf, systems, TRI_PRIME, GridOrder())
  }

  /** Generation as the shipped code does it: the side cards' order is never
      drawn, so side card 0 always goes to sector 3 and side card 1 to sector 5. */
  function GenerateAsWritten(topBottom: seq<int>, mirror: seq<bool>): (b: Board)
    requires ValidDraw(Draw(topBottom, [3, 5], mirror))
    ensures b == Generate(Draw(topBottom, [3, 5], mirror))
  {
    Generate(Draw(topBottom, [3, 5], mirror))
  }

  // ---------------------------------------------------------------------------
  // What generation guarantees, for every draw

  /** The shape every board keeps: its hexes are the live grid positions,
      each at its own position with its merged neighbours. */
  ghost predicate Shaped(b: Board)
  {
    && (forall c :: c in b.cells <==> Live(c))
    && (forall c :: c in b.order <==> Live(c))
    && Distinct(b.order)
    && (forall c :: c in b.cells ==> b.cells[c].pos == c && b.cells[c].neighbors == MergedNeighbors(c))
  }

  /** Generation yields a board of the right shape with every hex empty. */
  lemma GenerateShaped(d: Draw)
    requires ValidDraw(d)
    ensures Shaped(Generate(d))
    ensures forall c :: c in Generate(d).cells ==> Generate(d).cells[c].ships == [] && !Hexes.IsOccupied(Generate(d).cells[c])
  {
    SystemsInInitialCells(d);
  }

  /** Each created system ends with the level it was created with. */
  lemma GeneratedLevels(d: Draw)
    requires ValidDraw(d)
    ensures forall n :: 0 <= n < 25 ==> SystemsList(d)[n] in Generate(d).cells
    ensures forall n :: 0 <= n < 25 ==> Generate(d).cells[SystemsList(d)[n]].level == LevelsList()[n]
  {
    SystemsListDistinct(d);
    SystemsInInitialCells(d);
    ApplyLevelsDistinct(InitialCells(), SystemsList(d), LevelsList());
  }

  /** The systems list names exactly the hexes of the board that are systems. */
  predicate SystemsListed(b: Board)
  {
    && (forall c :: c in b.systems ==> c in b.cells)
    && (forall c :: c in b.cells ==> (IsSystem(b.cells[c]) <==> c in b.systems))
  }

  /** Generation lists every system it creates and no other hex: the hexes
      it does not name keep level 0. */
  lemma GenerateSystemsListed(d: Draw)
    requires ValidDraw(d)
    ensures SystemsListed(Generate(d))
    ensures forall c :: c in Generate(d).cells ==> Generate(d).cells[c].level >= 0
  {
    SystemsListDistinct(d);
    SystemsInInitialCells(d);
    ApplyLevelsSystems(InitialCells(), SystemsList(d), LevelsList());
  }

  /** Giving distinct hexes of level 0 positive levels makes exactly those
      hexes systems. */
  lemma ApplyLevelsSystems(cells: map<Coord, Hex>, coords: seq<Coord>, lvls: seq<int>)
    requires |coords| == |lvls| && Distinct(coords)
    requires forall i :: 0 <= i < |coords| ==> coords[i] in cells && lvls[i] > 0
    requires forall c :: c in cells ==> cells[c].level == 0
    ensures forall c :: c in coords ==> c in cells
    ensures forall c :: c in cells ==> (IsSystem(ApplyLevels(cells, coords, lvls)[c]) <==> c in coords)
    ensures forall c :: c in cells ==> ApplyLevels(cells, coords, lvls)[c].level >= 0
  {
    ApplyLevelsDistinct(cells, coords, lvls);
  }

  /** The sector map sends each card system to its card's slot. */
  lemma GeneratedSectorMap(d: Draw)
    requires ValidDraw(d)
    ensures forall n :: 1 <= n < 25 ==> SystemsList(d)[n] in Generate(d).sectorOf
    ensures forall n :: 1 <= n < 25 ==> Generate(d).sectorOf[SystemsList(d)[n]] == SlotOf(d, (n - 1) / 3)
    ensures TRI_PRIME !in Generate(d).sectorOf
  {
    SectorMapOfSystems(d);
  }

  lemma SectorMapOfSystems(d: Draw)
    requires ValidDraw(d)
    ensures forall n :: 1 <= n < 25 ==> SystemsList(d)[n] in SectorMap(d) && SectorMap(d)[SystemsList(d)[n]] == SlotOf(d, (n - 1) / 3)
    ensures TRI_PRIME !in SectorMap(d)
  {
    var systems := SystemsList(d);
    SystemsListDistinct(d);
    PutSectorsDistinct(map[], systems[1..], SectorIdsList(d));
    forall n | 1 <= n < 25
      ensures systems[n] in SectorMap(d) && SectorMap(d)[systems[n]] == SlotOf(d, (n - 1) / 3)
    {
      assert systems[1..][n - 1] == systems[n];
    }
    assert systems[0] !in systems[1..];
  }

  /** Slot `k` holds the sector of the card drawn for it; sector 4 is the central one. */
  lemma GeneratedSectors(d: Draw)
    requires ValidDraw(d)
    ensures Generate(d).sectors[4] == CentralSector()
    ensures forall i :: 0 <= i < 8 ==> Generate(d).sectors[SlotOf(d, i)] == CardSector(d, i)
  {
    AssignedSectors(InitialSectors(), d);
  }

  /** For every draw the Tri-Prime is the level-3 system alone in the
      central sector 4 and belongs to no sector in the sector map. */
  lemma GenerateTriPrime(d: Draw)
    requires ValidDraw(d)
    ensures TRI_PRIME in Generate(d).cells && Generate(d).cells[TRI_PRIME].level == 3
    ensures IsTriPrime(Generate(d).cells[TRI_PRIME])
    ensures Generate(d).sectors[4] == CentralSector()
    ensures TRI_PRIME !in Generate(d).sectorOf
  {
    GeneratedLevels(d);
    GeneratedSectorMap(d);
    GeneratedSectors(d);
  }

  /** For every draw, every sector other than the central one holds three
      different live hexes of levels 1, 1 and 2, none the Tri-Prime, that
      the sector map sends back to it. */
  lemma GenerateSectorsPlaced(d: Draw)
    requires ValidDraw(d)
    ensures forall k :: 0 <= k < 9 && k != 4 ==> WellPlacedSector(Generate(d), k)
  {
    GeneratedLevels(d);
    GeneratedSectorMap(d);
    GeneratedSectors(d);
    SystemsListDistinct(d);
    var b := Generate(d);
    forall k | 0 <= k < 9 && k != 4
      ensures WellPlacedSector(b, k)
    {
      CardSectorWellPlaced(d, b, CardOfSlot(d, k));
    }
  }

  /** For every draw, no hex belongs to two sectors. */
  lemma GenerateSectorsDisjoint(d: Draw)
    requires ValidDraw(d)
    ensures forall k, k', c :: 0 <= k < k' < 9 && c in Generate(d).sectors[k].systemHexes
              ==> c !in Generate(d).sectors[k'].systemHexes
  {
    GeneratedSectors(d);
    var sectors := Generate(d).sectors;
    forall k, k', c | 0 <= k < k' < 9 && c in sectors[k].systemHexes
      ensures c !in sectors[k'].systemHexes
    {
      SectorsDisjoint(d, sectors, k, k', c);
    }
  }

  /** Sector lookups agree with the sectors' own lists: every system of a
      non-central sector maps back to that sector, and every hex the map
      knows belongs to the non-central sector it maps to. */
  predicate SectorsIndexed(b: Board)
  {
    && (forall k, j :: 0 <= k < |b.sectors| && !b.sectors[k].isCentral && 0 <= j < |b.sectors[k].systemHexes| ==>
          b.sectors[k].systemHexes[j] in b.sectorOf && b.sectorOf[b.sectors[k].systemHexes[j]] == k)
    && (forall c :: c in b.sectorOf ==>
          && 0 <= b.sectorOf[c] < |b.sectors|
          && !b.sectors[b.sectorOf[c]].isCentral
          && c in b.sectors[b.sectorOf[c]].systemHexes)
  }

  /** Every draw yields a board whose sector lookups agree with its sectors. */
  lemma GenerateSectorsIndexed(d: Draw)
    requires ValidDraw(d)
    ensures SectorsIndexed(Generate(d))
  {
    GenerateSectorsListBack(d);
    GenerateSectorMapInSectors(d);
  }

  lemma GenerateSectorsListBack(d: Draw)
    requires ValidDraw(d)
    ensures var b := Generate(d);
      forall k, j :: 0 <= k < |b.sectors| && !b.sectors[k].isCentral && 0 <= j < |b.sectors[k].systemHexes| ==>
        b.sectors[k].systemHexes[j] in b.sectorOf && b.sectorOf[b.sectors[k].systemHexes[j]] == k
  {
    var b := Generate(d);
    GenerateSectorsPlaced(d);
    GeneratedSectors(d);
    forall k, j | 0 <= k < |b.sectors| && !b.sectors[k].isCentral && 0 <= j < |b.sectors[k].systemHexes|
      ensures b.sectors[k].systemHexes[j] in b.sectorOf && b.sectorOf[b.sectors[k].systemHexes[j]] == k
    {
      assert k != 4;
      assert WellPlacedSector(b, k);
    }
  }

  lemma GenerateSectorMapInSectors(d: Draw)
    requires ValidDraw(d)
    ensures var b := Generate(d);
      forall c :: c in b.sectorOf ==>
        && 0 <= b.sectorOf[c] < |b.sectors|
        && !b.sectors[b.sectorOf[c]].isCentral
        && c in b.sectors[b.sectorOf[c]].systemHexes
  {
    var b := Generate(d);
    var systems := SystemsList(d);
    GeneratedSectorMap(d);
    GeneratedSectors(d);
    assert b.sectorOf == SectorMap(d);
    forall c | c in b.sectorOf
      ensures 0 <= b.sectorOf[c] < |b.sectors| && !b.sectors[b.sectorOf[c]].isCentral
      ensures c in b.sectors[b.sectorOf[c]].systemHexes
    {
      assert c in systems[1..];
      var m :| 0 <= m < 24 && systems[1..][m] == c;
      var n := m + 1;
      assert systems[n] == c;
      var i := (n - 1) / 3;
      assert b.sectorOf[c] == SlotOf(d, i);
      assert b.sectors[SlotOf(d, i)] == CardSector(d, i);
      assert CardPlacement(d, i)[(n - 1) % 3] == c;
    }
  }

  /** A non-central sector as generation leaves it. */
  predicate WellPlacedSector(b: Board, k: int)
    requires 0 <= k < |b.sectors|
  {
    var s := b.sectors[k];
    && s.id == k && !s.isCentral && !s.isScored
    && |s.systemHexes| == 3 && Distinct(s.systemHexes)
    && (forall j :: 0 <= j < 3 ==> Live(s.systemHexes[j]) && s.systemHexes[j] != TRI_PRIME)
    && (forall j :: 0 <= j < 3 ==> s.systemHexes[j] in b.cells && b.cells[s.systemHexes[j]].level == CardLevel(j))
    && (forall j :: 0 <= j < 3 ==> s.systemHexes[j] in b.sectorOf && b.sectorOf[s.systemHexes[j]] == k)
  }

  /** The card that goes to slot `k`. */
  function CardOfSlot(d: Draw, k: int): (i: nat)
    requires ValidDraw(d) && 0 <= k < 9 && k != 4
    ensures i < 8 && SlotOf(d, i) == k
  {
    if k == 3 || k == 5 then (if d.side[0] == k then 6 else 7)
    else
      assert k in d.topBottom by {
        SlotsCovered(d.topBottom, k);
      }
      var i :| 0 <= i < 6 && d.topBottom[i] == k;
      i
  }

  /** Six different top/bottom slots are all six of them. */
  lemma SlotsCovered(s: seq<int>, k: int)
    requires |s| == 6 && Distinct(s) && (forall i :: 0 <= i < 6 ==> TopBottomSlot(s[i]))
    requires TopBottomSlot(k)
    ensures k in s
  {
    var all := {0, 1, 2, 6, 7, 8};
    var elems := set i | 0 <= i < 6 :: s[i];
    assert elems <= all;
    DistinctSetCard(s);
    assert (set x | x in s) == elems;
    SubsetSameSize(elems, all);
  }

  lemma SubsetSameSize<T>(a: set<T>, b: set<T>)
    requires a <= b && |a| == |b|
    ensures a == b
  {
    if a != b {
      var x :| x in b && x !in a;
      assert a <= b - {x};
      assert |b - {x}| == |b| - 1;
      SubsetSize(a, b - {x});
    }
  }

  lemma SubsetSize<T>(a: set<T>, b: set<T>)
    requires a <= b
    ensures |a| <= |b|
  {
    assert b == a + (b - a);
  }

  lemma CardSectorWellPlaced(d: Draw, b: Board, i: nat)
    requires ValidDraw(d) && i < 8 && |b.sectors| == 9
    requires Distinct(SystemsList(d))
    requires forall n :: 0 <= n < 25 ==> SystemsList(d)[n] in b.cells
    requires forall n :: 0 <= n < 25 ==> b.cells[SystemsList(d)[n]].level == LevelsList()[n]
    requires forall n :: 1 <= n < 25 ==> SystemsList(d)[n] in b.sectorOf
    requires forall n :: 1 <= n < 25 ==> b.sectorOf[SystemsList(d)[n]] == SlotOf(d, (n - 1) / 3)
    requires b.sectors[SlotOf(d, i)] == CardSector(d, i)
    ensures WellPlacedSector(b, SlotOf(d, i))
  {
    var k := SlotOf(d, i);
    var hexes := CardPlacement(d, i);
    forall j | 0 <= j < 3
      ensures Live(hexes[j]) && hexes[j] != TRI_PRIME
      ensures hexes[j] in b.cells && b.cells[hexes[j]].level == CardLevel(j)
      ensures hexes[j] in b.sectorOf && b.sectorOf[hexes[j]] == k
    {
      PlacementInSlot(d, i, j);
      var n := 1 + 3 * i + j;
      assert (n - 1) / 3 == i && (n - 1) % 3 == j;
      assert SystemsList(d)[n] == hexes[j];
    }
    forall j, j' | 0 <= j < j' < 3
      ensures hexes[j] != hexes[j']
    {
      var n, m := 1 + 3 * i + j, 1 + 3 * i + j';
      assert (n - 1) / 3 == i && (n - 1) % 3 == j;
      assert (m - 1) / 3 == i && (m - 1) % 3 == j';
      assert SystemsList(d)[n] == hexes[j] && SystemsList(d)[m] == hexes[j'];
    }
  }

  lemma SectorsDisjoint(d: Draw, sectors: seq<Sector>, k: int, k': int, c: Coord)
    requires ValidDraw(d) && |sectors| == 9 && 0 <= k < k' < 9
    requires sectors[4] == CentralSector()
    requires forall i :: 0 <= i < 8 ==> sectors[SlotOf(d, i)] == CardSector(d, i)
    requires c in sectors[k].systemHexes
    ensures c !in sectors[k'].systemHexes
  {
    if k == 4 {
      var i' := CardOfSlot(d, k');
      assert sectors[k'] == CardSector(d, i');
      forall j | 0 <= j < 3 ensures CardPlacement(d, i')[j] != TRI_PRIME { PlacementInSlot(d, i', j); }
    } else {
      var i := CardOfSlot(d, k);
      assert sectors[k] == CardSector(d, i);
      var j :| 0 <= j < 3 && CardPlacement(d, i)[j] == c;
      PlacementInSlot(d, i, j);
      if k' != 4 {
        var i' := CardOfSlot(d, k');
        assert sectors[k'] == CardSector(d, i');
        if c in CardPlacement(d, i') {
          var j' :| 0 <= j' < 3 && CardPlacement(d, i')[j'] == c;
          PlacementInSlot(d, i', j');
          SlotsDisjoint(c, k, k');
        }
      }
    }
  }

  // ---------------------------------------------------------------------------
  // The side-card draw

  /** As shipped, sector 3 always receives side card 0, so its level-2
      system is always in column 3 or 5, never in the middle column 4. */
  lemma AsWrittenSideSectorFixed(topBottom: seq<int>, mirror: seq<bool>)
    requires ValidDraw(Draw(topBottom, [3, 5], mirror))
    ensures GenerateAsWritten(topBottom, mirror).sectors[3].systemHexes == PlaceSide(SideCard(0), 3, mirror[0])
    ensures GenerateAsWritten(topBottom, mirror).sectors[3].systemHexes[2].x != 4
  {
    var d := Draw(topBottom, [3, 5], mirror);
    GeneratedSectors(d);
    assert SlotOf(d, 6) == 3;
    assert Generate(d).sectors[3] == CardSector(d, 6);
  }

  /** With the side cards drawn, either card can land in sector 3; the draw
      that swaps them puts a level-2 system of sector 3 in column 4. */
  lemma SideDrawReachesBothOrders(topBottom: seq<int>, mirror: seq<bool>)
    requires ValidDraw(Draw(topBottom, [3, 5], mirror))
    ensures ValidDraw(Draw(topBottom, [5, 3], mirror))
    ensures Generate(Draw(topBottom, [5, 3], mirror)).sectors[3].systemHexes == PlaceSide(SideCard(1), 3, mirror[1])
    ensures Generate(Draw(topBottom, [5, 3], mirror)).sectors[3].systemHexes[2].x == 4
  {
    var d := Draw(topBottom, [5, 3], mirror);
    GeneratedSectors(d);
    assert SlotOf(d, 7) == 3;
    assert Generate(d).sectors[3] == CardSector(d, 7);
  }

  // ---------------------------------------------------------------------------
  // Queries

  /** The hex at (x, y), or nothing outside the grid and at the three
      positions the Tri-Prime absorbed. */
  function GetHex(b: Board, x: int, y: int): (r: Option<Hex>)
    ensures Shaped(b) ==> (r.Some? <==> Live(Coord(x, y)))
    ensures r.Some? ==> Coord(x, y) in b.cells && r.value == b.cells[Coord(x, y)]
  {
    if Coord(x, y) in b.cells then Some(b.cells[Coord(x, y)]) else None
  }

  /** The sector a hex belongs to, if any (the Tri-Prime has none). On a
      board whose map and sector lists agree, it is the outer sector that
      lists the hex. */
  function SectorContainingHex(b: Board, c: Coord): (r: Option<int>)
    ensures r.Some? <==> c in b.sectorOf
    ensures r.Some? ==> r.value == b.sectorOf[c]
    ensures SectorsIndexed(b) && r.Some? ==>
      0 <= r.value < |b.sectors| && !b.sectors[r.value].isCentral && c in b.sectors[r.value].systemHexes
    ensures SectorsIndexed(b) ==> forall k :: 0 <= k < |b.sectors| && !b.sectors[k].isCentral && c in b.sectors[k].systemHexes ==> r == Some(k)
  {
    if c in b.sectorOf then Some(b.sectorOf[c]) else None
  }

  predicate ControlledAt(b: Board, c: Coord, p: PlayerColor)
  {
    c in b.cells && IsControlledBy(b.cells[c], p)
  }

  function SystemsControlledBy(b: Board, p: PlayerColor): (r: seq<Coord>)
    ensures forall c :: c in r <==> c in b.systems && ControlledAt(b, c, p)
  {
    Filter(b.systems, c => ControlledAt(b, c, p))
  }

  function SystemsNotControlledBy(b: Board, p: PlayerColor): (r: seq<Coord>)
    ensures forall c :: c in r <==> c in b.systems && !ControlledAt(b, c, p)
  {
    Filter(b.systems, c => !ControlledAt(b, c, p))
  }

  /** The two lists split the systems: together they are the systems list,
      each system in exactly one of them. */
  lemma SystemsPartition(b: Board, p: PlayerColor)
    ensures multiset(SystemsControlledBy(b, p)) + multiset(SystemsNotControlledBy(b, p)) == multiset(b.systems)
  {
    FilterComplementMultiset(b.systems, c => ControlledAt(b, c, p), c => !ControlledAt(b, c, p));
  }

  /** The hexes the player controls, in grid order. */
  function HexesPlayerOn(b: Board, p: PlayerColor): (r: seq<Coord>)
    requires Shaped(b)
    ensures forall c :: c in r <==> c in b.cells && IsControlledBy(b.cells[c], p)
    ensures Distinct(r)
  {
    DistinctFilter(b.order, c => ControlledAt(b, c, p));
    Filter(b.order, c => ControlledAt(b, c, p))
  }

  // ---------------------------------------------------------------------------
  // End of round: every hex sheds the ships it cannot sustain

  /** Hexes whose ship lists name existing ships and whose levels are not negative. */
  predicate ShipsValid(cells: map<Coord, Hex>, table: ShipTable)
  {
    forall c :: c in cells ==> cells[c].level >= 0 && ValidIds(table, cells[c].ships)
  }

  /** Trims the hexes listed, in order. */
  function TrimHexes(cells: map<Coord, Hex>, table: ShipTable, order: seq<Coord>): (r: (map<Coord, Hex>, ShipTable))
    requires ShipsValid(cells, table)
    ensures Trimmed(cells, table, order, r.0, r.1)
    decreases |order|
  {
    if order == [] then (cells, table)
    else if order[0] !in cells || order[0] in order[1..] then
      var r := TrimHexes(cells, table, order[1..]);
      assert forall c :: c in order <==> c == order[0] || c in order[1..];
      assert forall id :: 0 <= id < |table| ==> Returned(cells, order, table, id) == Returned(cells, order[1..], table, id) by {
        forall id | 0 <= id < |table| { InExcessSkip(cells, order, id); }
      }
      r
    else
      var c := order[0];
      var (h, t) := Hexes.RemoveUnsustainableShips(cells[c], table);
      var cells' := cells[c := h];
      assert ShipsValid(cells', t);
      var r := TrimHexes(cells', t, order[1..]);
      TrimStep(cells, table, order, h, t, r.0, r.1);
      r
  }

  /** What trimming the listed hexes does: every listed hex loses its excess
      ships from the front of its list and those ships go back to the
      reserve; nothing else changes, neither on the board nor in the table. */
  ghost predicate Trimmed(cells: map<Coord, Hex>, table: ShipTable, order: seq<Coord>,
                          cells': map<Coord, Hex>, table': ShipTable)
  {
    && ShipsValid(cells, table)
    && cells'.Keys == cells.Keys && |table'| == |table|
    && ShipsValid(cells', table')
    && (forall c :: c in cells && c !in order ==> cells'[c] == cells[c])
    && (forall c :: c in cells && c in order ==> cells'[c] == cells[c].(ships := cells[c].ships[Excess(cells[c])..]))
    && (forall id :: 0 <= id < |table| ==> table'[id] == Returned(cells, order, table, id))
  }

  /** Ship `id` is among the excess ships at the front of one of the listed hexes. */
  ghost predicate InExcess(cells: map<Coord, Hex>, order: seq<Coord>, id: ShipId)
  {
    exists c :: c in cells && c in order && id in cells[c].ships[..Excess(cells[c])]
  }

  /** Ship `id` after the listed hexes are trimmed: back in the reserve if
      it was in excess somewhere, untouched otherwise. */
  ghost function Returned(cells: map<Coord, Hex>, order: seq<Coord>, table: ShipTable, id: ShipId): Ship
    requires id < |table|
  {
    if InExcess(cells, order, id) then SetDeployed(table[id], false) else table[id]
  }

  /** Trimming the first listed hex, then the rest, trims them all. */
  lemma TrimStep(cells: map<Coord, Hex>, table: ShipTable, order: seq<Coord>,
                 h: Hex, t: ShipTable, cells'': map<Coord, Hex>, table'': ShipTable)
    requires ShipsValid(cells, table)
    requires order != [] && order[0] in cells && order[0] !in order[1..]
    requires (h, t) == Hexes.RemoveUnsustainableShips(cells[order[0]], table)
    requires Trimmed(cells[order[0] := h], t, order[1..], cells'', table'')
    ensures Trimmed(cells, table, order, cells'', table'')
  {
    var c0 := order[0];
    var cells' := cells[c0 := h];
    var front := cells[c0].ships[..Excess(cells[c0])];
    assert forall c :: c in order <==> c == c0 || c in order[1..];
    assert h == cells[c0].(ships := cells[c0].ships[Excess(cells[c0])..]);
    forall id | 0 <= id < |table|
      ensures table''[id] == Returned(cells, order, table, id)
    {
      assert t[id] == if id in front then SetDeployed(table[id], false) else table[id];
      assert table''[id] == Returned(cells', order[1..], t, id);
      if InExcess(cells, order, id) {
        var c :| c in cells && c in order && id in cells[c].ships[..Excess(cells[c])];
        if c != c0 {
          assert cells'[c] == cells[c];
          assert InExcess(cells', order[1..], id);
        }
      }
      if id in front {
        assert c0 in cells && c0 in order && id in cells[c0].ships[..Excess(cells[c0])];
      }
      if InExcess(cells', order[1..], id) {
        var c :| c in cells' && c in order[1..] && id in cells'[c].ships[..Excess(cells'[c])];
        assert c != c0 && cells'[c] == cells[c];
        assert InExcess(cells, order, id);
      }
    }
  }

  /** Skipping a listed coordinate that is not on the board or is listed
      again later selects the same excess ships. */
  lemma InExcessSkip(cells: map<Coord, Hex>, order: seq<Coord>, id: ShipId)
    requires order != [] && (order[0] !in cells || order[0] in order[1..])
    ensures InExcess(cells, order, id) <==> InExcess(cells, order[1..], id)
  {
    assert forall c :: c in order <==> c == order[0] || c in order[1..];
    if InExcess(cells, order, id) {
      var c :| c in cells && c in order && id in cells[c].ships[..Excess(cells[c])];
      assert c in order[1..];
    }
  }

  /** Every ship trimmed from a listed hex is back in the reserve. */
  lemma TrimmedReturns(cells: map<Coord, Hex>, table: ShipTable, order: seq<Coord>,
                       cells': map<Coord, Hex>, table': ShipTable)
    requires Trimmed(cells, table, order, cells', table')
    ensures forall c, i :: c in cells && c in order && 0 <= i < Excess(cells[c]) ==> !table'[cells[c].ships[i]].deployed
  {
    forall c, i | c in cells && c in order && 0 <= i < Excess(cells[c])
      ensures !table'[cells[c].ships[i]].deployed
    {
      var id := cells[c].ships[i];
      assert id in cells[c].ships[..Excess(cells[c])];
      assert InExcess(cells, order, id);
    }
  }

  /** Trimming the whole board: afterwards every hex holds at most
      `level + 1` ships, each hex lost the ships at the front of its list,
      the ships that left are back in the reserve, and nothing else changed,
      neither on the board nor in the table. */
  function RemoveUnsustainableShips(b: Board, table: ShipTable): (r: (Board, ShipTable))
    requires Shaped(b) && ShipsValid(b.cells, table)
    ensures r.0 == b.(cells := r.0.cells) && r.0.cells.Keys == b.cells.Keys
    ensures forall c :: c in b.cells ==> r.0.cells[c] == b.cells[c].(ships := b.cells[c].ships[Excess(b.cells[c])..])
    ensures forall c :: c in r.0.cells ==> |r.0.cells[c].ships| <= EndRoundCapacity(r.0.cells[c])
    ensures |r.1| == |table|
    ensures forall id :: 0 <= id < |table| ==> r.1[id] == Returned(b.cells, b.order, table, id)
    ensures forall c, i :: c in b.cells && 0 <= i < Excess(b.cells[c]) ==> !r.1[b.cells[c].ships[i]].deployed
  {
    var (cells, t) := TrimHexes(b.cells, table, b.order);
    assert forall c :: c in b.cells ==> c in b.order;
    TrimmedReturns(b.cells, table, b.order, cells, t);
    (b.(cells := cells), t)
  }
}
