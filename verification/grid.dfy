/** The board's geometry: nine columns of hexes in an "odd-q" offset layout
    (even columns hold six hexes, odd columns five), the neighbour relation
    the grid is built with, and the merge of the four central hexes into the
    single Tri-Prime at (4, 2). */
module Grid {
  import opened Common
  import opened Hexes

  const COLUMNS: int := 9
  const TRI_PRIME: Coord := Coord(4, 2)

  /** Hexes in column `x`: six in even columns, five in odd ones (`5 + ((x & 1) ^ 1)`;
      Dafny's `x % 2` is `x & 1` for every integer). */
  function Rows(x: int): int
  {
    5 + (1 - x % 2)
  }

  predicate InBounds(c: Coord)
  {
    0 <= c.x < COLUMNS && 0 <= c.y < Rows(c.x)
  }

  /** Neighbour offsets used to build the grid, by column parity. */
  function Offsets(x: int): (o: seq<(int, int)>)
    ensures |o| == 6
  {
    if x % 2 == 0 then [(0, 1), (0, -1), (1, 0), (-1, 0), (1, -1), (-1, -1)]
    else [(0, 1), (0, -1), (1, 0), (-1, 0), (1, 1), (-1, 1)]
  }

  function Shift(c: Coord, k: nat): Coord
    requires k < 6
  {
    Coord(c.x + Offsets(c.x)[k].0, c.y + Offsets(c.x)[k].1)
  }

  /** The neighbours a hex gets when the grid is built: its six offsets that
      fall inside the grid. */
  function GridNeighbors(c: Coord): (r: set<Coord>)
    ensures forall n :: n in r ==> InBounds(n)
  {
    set k | 0 <= k < 6 && InBounds(Shift(c, k)) :: Shift(c, k)
  }

  /** The offsets the grid is built with are the six directions a hex knows
      its neighbours by, in another order. */
  lemma OffsetsAreDirections(c: Coord)
    ensures (set k | 0 <= k < 6 :: Shift(c, k)) == (set d | 0 <= d < 6 :: Neighbor(c, d))
  {
    var a := set k | 0 <= k < 6 :: Shift(c, k);
    var b := set d | 0 <= d < 6 :: Neighbor(c, d);
    var perm := if c.x % 2 == 0 then [4, 1, 5, 3, 0, 2] else [4, 1, 0, 2, 5, 3];
    assert forall k :: 0 <= k < 6 ==> Shift(c, k) == Neighbor(c, perm[k]);
    assert forall d :: 0 <= d < 6 ==> Neighbor(c, d) in a by {
      forall d | 0 <= d < 6
        ensures Neighbor(c, d) in a
      {
        var inv := if c.x % 2 == 0 then [4, 1, 5, 3, 0, 2] else [2, 1, 3, 5, 0, 4];
        assert Neighbor(c, d) == Shift(c, inv[d]);
      }
    }
  }

  /** The grid offset opposite to offset `k`. */
  function Opposite(k: nat): nat
    requires k < 6
  {
    [1, 0, 3, 2, 5, 4][k]
  }

  lemma ShiftOpposite(c: Coord, k: nat)
    requires k < 6
    ensures Shift(Shift(c, k), Opposite(k)) == c
  {
    var dx := Offsets(c.x)[k].0;
    assert (c.x + dx) % 2 == 0 <==> (dx == 0) == (c.x % 2 == 0);
  }

  /** The grid's neighbour relation links in-bounds hexes only, never a hex
      to itself, and always both ways. */
  lemma GridNeighborsSymmetric(a: Coord, b: Coord)
    requires InBounds(a) && InBounds(b)
    ensures a !in GridNeighbors(a)
    ensures b in GridNeighbors(a) <==> a in GridNeighbors(b)
  {
    if b in GridNeighbors(a) {
      var k :| 0 <= k < 6 && InBounds(Shift(a, k)) && Shift(a, k) == b;
      ShiftOpposite(a, k);
      assert Shift(b, Opposite(k)) == a;
    }
    if a in GridNeighbors(b) {
      var k :| 0 <= k < 6 && InBounds(Shift(b, k)) && Shift(b, k) == a;
      ShiftOpposite(b, k);
      assert Shift(a, Opposite(k)) == b;
    }
  }

  // ---------------------------------------------------------------------------
  // The Tri-Prime merge

  /** The four central hexes that become the Tri-Prime. */
  const MERGED: set<Coord> := {Coord(3, 2), Coord(4, 2), Coord(4, 3), Coord(5, 2)}

  /** The three of them that disappear from the grid. */
  const REMOVED: set<Coord> := {Coord(3, 2), Coord(4, 3), Coord(5, 2)}

  /** A hex of the final board. */
  predicate Live(c: Coord)
  {
    InBounds(c) && c !in REMOVED
  }

  /** Every hex adjacent to one of the four merged hexes, outside them. */
  function Outer(): set<Coord>
  {
    (GridNeighbors(Coord(3, 2)) + GridNeighbors(Coord(4, 2)) + GridNeighbors(Coord(4, 3)) + GridNeighbors(Coord(5, 2)))
      - MERGED
  }

  /** Neighbours after the merge: the Tri-Prime keeps its own outer
      neighbours and gains the outer neighbours of the three merged hexes;
      each of those outer hexes forgets the merged hexes and gains the
      Tri-Prime; every other hex keeps its grid neighbours. */
  function MergedNeighbors(c: Coord): set<Coord>
  {
    if c == TRI_PRIME then (GridNeighbors(c) - MERGED) + Outer()
    else if c in Outer() then (GridNeighbors(c) - MERGED) + {TRI_PRIME}
    else GridNeighbors(c)
  }

  /** The Tri-Prime's neighbours are exactly the hexes around the merged block. */
  lemma TriPrimeNeighbors()
    ensures MergedNeighbors(TRI_PRIME) == Outer()
    ensures TRI_PRIME in MERGED && MERGED == REMOVED + {TRI_PRIME}
  {
    assert GridNeighbors(TRI_PRIME) - MERGED <= Outer();
  }

  /** A live hex other than the Tri-Prime that touches the merged block in
      the grid lies around it. */
  lemma TouchingIsOuter(c: Coord, g: Coord)
    requires Live(c) && c != TRI_PRIME && g in MERGED && g in GridNeighbors(c)
    ensures c in Outer()
  {
    GridNeighborsSymmetric(c, g);
    assert c in GridNeighbors(g);
  }

  /** After the merge no live hex lists a removed hex, every neighbour is a
      live hex, and no hex is its own neighbour. */
  lemma MergedNeighborsLive(c: Coord)
    requires Live(c)
    ensures forall n :: n in MergedNeighbors(c) ==> Live(n)
    ensures c !in MergedNeighbors(c)
  {
    GridNeighborsSymmetric(c, c);
    forall n | n in MergedNeighbors(c)
      ensures Live(n)
    {
      if c != TRI_PRIME && c !in Outer() && n in MERGED {
        TouchingIsOuter(c, n);
      }
    }
  }

  /** Adjacency stays symmetric after the merge. */
  lemma MergedNeighborsSymmetric(a: Coord, b: Coord)
    requires Live(a) && Live(b)
    ensures b in MergedNeighbors(a) <==> a in MergedNeighbors(b)
  {
    GridNeighborsSymmetric(a, b);
    if a != TRI_PRIME && b != TRI_PRIME {
      if b in GridNeighbors(a) && a !in Outer() {
        if b in MERGED { TouchingIsOuter(a, b); }
      }
      if a in GridNeighbors(b) && b !in Outer() {
        if a in MERGED { TouchingIsOuter(b, a); }
      }
      if b in GridNeighbors(a) && a in Outer() && b !in Outer() {
        assert b !in MERGED;
        assert a !in MERGED;
      }
    } else if a == TRI_PRIME && b != TRI_PRIME {
      if b in GridNeighbors(a) { assert b in Outer(); }
    } else if b == TRI_PRIME && a != TRI_PRIME {
      if a in GridNeighbors(b) { assert a in Outer(); }
    }
  }

  // ---------------------------------------------------------------------------
  // Enumeration of the board, column by column

  /** Every position of a six-row grid, column by column, top to bottom. */
  function Positions(): (r: seq<Coord>)
    ensures |r| == 6 * COLUMNS
    ensures forall i :: 0 <= i < |r| ==> r[i] == Coord(i / 6, i % 6)
  {
    seq(6 * COLUMNS, i => Coord(i / 6, i % 6))
  }

  /** The order in which the board's hexes are visited: the grid's row
      arrays in turn, column by column, the three absorbed positions left out. */
  function GridOrder(): (r: seq<Coord>)
    ensures forall c :: c in r <==> Live(c)
    ensures Distinct(r)
    ensures forall i, j :: 0 <= i < j < |r| ==> Precedes(r[i], r[j])
  {
    var all := Positions();
    PositionsCover();
    PositionsOrdered();
    DistinctFilter(all, Live);
    FilterKeepsOrder(all, Live, Precedes);
    Filter(all, Live)
  }

  /** Every live position is among the enumerated ones. */
  lemma PositionsCover()
    ensures forall c :: Live(c) ==> c in Positions()
  {
    var all := Positions();
    forall c | Live(c)
      ensures c in all
    {
      var i := 6 * c.x + c.y;
      assert i / 6 == c.x && i % 6 == c.y;
      assert all[i] == c;
    }
  }

  /** The enumeration is in column-major order. */
  lemma PositionsOrdered()
    ensures forall i, j :: 0 <= i < j < |Positions()| ==> Precedes(Positions()[i], Positions()[j])
  {
    var all := Positions();
    forall i, j | 0 <= i < j < |all|
      ensures Precedes(all[i], all[j])
    {
      assert i / 6 <= j / 6;
    }
  }

  /** Column-major order: by column, then by row. */
  predicate Precedes(a: Coord, b: Coord)
  {
    a.x < b.x || (a.x == b.x && a.y < b.y)
  }
}
