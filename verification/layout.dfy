/** Where the eight outer sectors go. Six "top/bottom" sector cards are
    drawn in a random order onto slots 0, 1, 2 (left column of the board)
    and 6, 7, 8 (right column, turned upside down); two "side" cards go to
    slots 3 and 5 (middle column, above and below the Tri-Prime), each
    possibly mirrored. A card lists three systems as (column, row) offsets:
    the first two are level-1 systems and the third a level-2 system. */
module Layout {
  import opened Common
  import opened Hexes
  import opened Grid

  /** The six top/bottom cards, normalised to the top-left corner. */
  function TopBottomCard(i: nat): (card: seq<(int, int)>)
    requires i < 6
    ensures |card| == 3
  {
    [ [(1, 0), (2, 1), (0, 0)],
      [(0, 0), (1, 0), (2, 0)],
      [(0, 0), (0, 1), (2, 1)],
      [(0, 0), (0, 1), (1, 0)],
      [(0, 0), (2, 0), (1, 0)],
      [(2, 0), (2, 1), (1, 0)] ][i]
  }

  /** The two side cards. */
  function SideCard(i: nat): (card: seq<(int, int)>)
    requires i < 2
    ensures |card| == 3
  {
    [ [(1, 0), (2, 0), (0, 0)],
      [(0, 0), (2, 0), (1, 1)] ][i]
  }

  /** Level of the `j`-th system of a card. */
  function CardLevel(j: nat): int
  {
    if j < 2 then 1 else 2
  }

  /** Slots of the top/bottom cards. */
  predicate TopBottomSlot(s: int)
  {
    0 <= s < 3 || 6 <= s < 9
  }

  /** Slots of the side cards. */
  predicate SideSlot(s: int)
  {
    s == 3 || s == 5
  }

  /** One offset of a top/bottom card placed in slot `s`: a card for the
      right column (slot 6 and up) is turned over first, then the card is
      moved down by two rows per slot. */
  function PlaceTopBottomCoord(o: (int, int), s: int): Coord
  {
    var (x, y) := if s >= 6 then (6 + (2 - o.0), (1 - (6 + (2 - o.0)) % 2) - o.1) else o;
    Coord(x, y + 2 * (s % 6))
  }

  /** One offset of a side card for sector `s`, mirrored or not, then moved
      to the middle column, two rows down per sector index modulo 3. */
  function PlaceSideCoord(o: (int, int), s: int, mirror: bool): Coord
  {
    var (x, y) := if mirror then (2 - o.0, (2 - o.0) % 2 - o.1) else o;
    Coord(x + 3, y + 2 * (s % 3))
  }

  function PlaceTopBottom(card: seq<(int, int)>, s: int): (r: seq<Coord>)
    ensures |r| == |card|
    ensures forall j :: 0 <= j < |r| ==> r[j] == PlaceTopBottomCoord(card[j], s)
  {
    seq(|card|, j requires 0 <= j < |card| => PlaceTopBottomCoord(card[j], s))
  }

  function PlaceSide(card: seq<(int, int)>, s: int, mirror: bool): (r: seq<Coord>)
    ensures |r| == |card|
    ensures forall j :: 0 <= j < |r| ==> r[j] == PlaceSideCoord(card[j], s, mirror)
  {
    seq(|card|, j requires 0 <= j < |card| => PlaceSideCoord(card[j], s, mirror))
  }

  // ---------------------------------------------------------------------------
  // Where placed systems land

  /** The band of the board a sector slot covers: columns 0-2, 3-5 or 6-8,
      rows 2k and 2k+1 for k the slot's position in its column. */
  predicate InSlot(c: Coord, s: int)
  {
    && (if s < 3 then 0 <= c.x <= 2 else if s < 6 then 3 <= c.x <= 5 else 6 <= c.x <= 8)
    && 2 * (s % 3) <= c.y <= 2 * (s % 3) + 1
  }

  /** The offsets a top/bottom card uses: three columns, two rows, and in
      the middle (odd) column the top row only. */
  predicate TopBottomOffset(o: (int, int))
  {
    0 <= o.0 <= 2 && 0 <= o.1 <= 1 && (o.0 == 1 ==> o.1 == 0)
  }

  /** The offsets a side card uses, mirrored or not: in the outer columns
      the top row only. */
  predicate SideOffset(o: (int, int))
  {
    0 <= o.0 <= 2 && 0 <= o.1 <= 1 && (o.0 != 1 ==> o.1 == 0)
  }

  lemma CardsUseTheirOffsets()
    ensures forall i, j :: 0 <= i < 6 && 0 <= j < 3 ==> TopBottomOffset(TopBottomCard(i)[j])
    ensures forall i, j :: 0 <= i < 2 && 0 <= j < 3 ==> SideOffset(SideCard(i)[j])
  {
  }

  /** The six top/bottom cards and the two side cards each name three
      different offsets. */
  lemma CardsDistinct()
    ensures forall i :: 0 <= i < 6 ==> Distinct(TopBottomCard(i))
    ensures forall i :: 0 <= i < 2 ==> Distinct(SideCard(i))
  {
  }

  /** A top/bottom system lands inside its slot's band, on a live hex that is
      not the Tri-Prime. */
  lemma PlaceTopBottomCoordLive(o: (int, int), s: int)
    requires TopBottomOffset(o) && TopBottomSlot(s)
    ensures InSlot(PlaceTopBottomCoord(o, s), s)
    ensures Live(PlaceTopBottomCoord(o, s)) && PlaceTopBottomCoord(o, s) != TRI_PRIME
  {
  }

  /** A side system lands inside its sector's band, on a live hex that is
      not the Tri-Prime, mirrored or not. */
  lemma PlaceSideCoordLive(o: (int, int), s: int, mirror: bool)
    requires SideOffset(o) && SideSlot(s)
    ensures InSlot(PlaceSideCoord(o, s, mirror), s)
    ensures Live(PlaceSideCoord(o, s, mirror)) && PlaceSideCoord(o, s, mirror) != TRI_PRIME
  {
  }

  /** Placing a card never merges two of its systems. */
  lemma PlaceInjective(o1: (int, int), o2: (int, int), s: int, mirror: bool)
    ensures PlaceTopBottomCoord(o1, s) == PlaceTopBottomCoord(o2, s) ==> o1 == o2
    ensures PlaceSideCoord(o1, s, mirror) == PlaceSideCoord(o2, s, mirror) ==> o1 == o2
  {
  }

  /** The bands of two different slots do not meet, and no band holds the Tri-Prime. */
  lemma SlotsDisjoint(c: Coord, s: int, t: int)
    requires TopBottomSlot(s) || SideSlot(s)
    requires TopBottomSlot(t) || SideSlot(t)
    requires InSlot(c, s) && InSlot(c, t)
    ensures s == t
    ensures c !in MERGED
  {
  }
}
