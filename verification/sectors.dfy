/** A sector: a group of system hexes scored together. The central sector
    holds only the Tri-Prime; the eight others hold three systems each.
    Scoring gives every occupied system's level to its controller, doubled
    at the end of the game. */
module Sectors {
  import opened Common
  import opened Hexes
  import opened Players

  datatype Sector = Sector(id: int, systemHexes: seq<Coord>, isScored: bool, isCentral: bool)

  function NewSector(id: int): (s: Sector)
    ensures s.id == id && s.systemHexes == [] && !s.isScored && !s.isCentral
  {
    Sector(id, [], false, false)
  }

  /** Systems are kept in the order they were added. */
  function AddSystemHex(s: Sector, c: Coord): (r: Sector)
    ensures r.systemHexes == s.systemHexes + [c]
    ensures r.id == s.id && r.isScored == s.isScored && r.isCentral == s.isCentral
  {
    s.(systemHexes := s.systemHexes + [c])
  }

  function SetIsCentralSector(s: Sector, central: bool): (r: Sector)
    ensures r.isCentral == central
    ensures r.id == s.id && r.systemHexes == s.systemHexes && r.isScored == s.isScored
  {
    s.(isCentral := central)
  }

  function SetScored(s: Sector): (r: Sector)
    ensures r.isScored
    ensures r.id == s.id && r.systemHexes == s.systemHexes && r.isCentral == s.isCentral
  {
    s.(isScored := true)
  }

  function ResetScored(s: Sector): (r: Sector)
    ensures !r.isScored
    ensures r.id == s.id && r.systemHexes == s.systemHexes && r.isCentral == s.isCentral
  {
    s.(isScored := false)
  }

  /** Every system of the sector is a cell of the board. */
  predicate Placed(hexes: seq<Coord>, cells: map<Coord, Hex>)
  {
    forall i :: 0 <= i < |hexes| ==> hexes[i] in cells
  }

  /** Some system of the sector is occupied. */
  predicate IsOccupied(s: Sector, cells: map<Coord, Hex>)
  {
    exists i :: 0 <= i < |s.systemHexes| && s.systemHexes[i] in cells && Hexes.IsOccupied(cells[s.systemHexes[i]])
  }

  /** Sum of the levels of the listed systems controlled by `c`. */
  function Points(hexes: seq<Coord>, cells: map<Coord, Hex>, c: PlayerColor): int
    requires Placed(hexes, cells)
  {
    if hexes == [] then 0
    else
      (if IsControlledBy(cells[hexes[0]], c) then cells[hexes[0]].level else 0)
      + Points(hexes[1..], cells, c)
  }

  /** Sum of the levels of the listed systems that are occupied at all. */
  function OccupiedLevels(hexes: seq<Coord>, cells: map<Coord, Hex>): int
    requires Placed(hexes, cells)
  {
    if hexes == [] then 0
    else
      (if Hexes.IsOccupied(cells[hexes[0]]) then cells[hexes[0]].level else 0)
      + OccupiedLevels(hexes[1..], cells)
  }

  /** What the player of colour `c` would get from scoring the sector now. */
  function ScorePlayerExploit(s: Sector, cells: map<Coord, Hex>, c: PlayerColor): int
    requires Placed(s.systemHexes, cells)
  {
    Points(s.systemHexes, cells, c)
  }

  /** Gives each listed system's level, times `mult`, to its controller. */
  function ScoreHexes(hexes: seq<Coord>, cells: map<Coord, Hex>, players: seq<Player>, mult: int): (r: seq<Player>)
    requires Placed(hexes, cells)
    ensures |r| == |players|
    ensures forall i :: 0 <= i < |r| ==> r[i] == AddToScore(players[i], mult * Points(hexes, cells, players[i].color))
  {
    if hexes == [] then
      assert forall i :: 0 <= i < |players| ==> AddToScore(players[i], 0) == players[i];
      players
    else
      var h := cells[hexes[0]];
      var scored := if Hexes.IsOccupied(h) then AddToScoreOf(players, h.controller.value, h.level * mult) else players;
      var r := ScoreHexes(hexes[1..], cells, scored, mult);
      ScoreHexesStep(hexes, cells, players, mult, scored, r);
      r
  }

  /** One system scored, then the rest: the gains add up. */
  lemma ScoreHexesStep(hexes: seq<Coord>, cells: map<Coord, Hex>, players: seq<Player>, mult: int,
                       scored: seq<Player>, r: seq<Player>)
    requires Placed(hexes, cells) && hexes != []
    requires scored == (if Hexes.IsOccupied(cells[hexes[0]])
                        then AddToScoreOf(players, cells[hexes[0]].controller.value, cells[hexes[0]].level * mult)
                        else players)
    requires |r| == |scored|
    requires forall i :: 0 <= i < |r| ==> r[i] == AddToScore(scored[i], mult * Points(hexes[1..], cells, scored[i].color))
    ensures |r| == |players|
    ensures forall i :: 0 <= i < |r| ==> r[i] == AddToScore(players[i], mult * Points(hexes, cells, players[i].color))
  {
    var h := cells[hexes[0]];
    forall i | 0 <= i < |r|
      ensures r[i] == AddToScore(players[i], mult * Points(hexes, cells, players[i].color))
    {
      var c := players[i].color;
      var head := if IsControlledBy(h, c) then h.level else 0;
      var rest := Points(hexes[1..], cells, c);
      assert scored[i] == AddToScore(players[i], mult * head) by {
        if Hexes.IsOccupied(h) && h.controller.value == c {
          assert head * mult == mult * head;
        }
      }
      assert Points(hexes, cells, c) == head + rest;
      assert mult * head + mult * rest == mult * (head + rest) by {
        MulDistributes(mult, head, rest);
      }
    }
  }

  lemma MulDistributes(m: int, a: int, b: int)
    ensures m * a + m * b == m * (a + b)
  {
  }

  /** Scores the sector: every player gains `mult` times the levels of the
      systems it controls there (`mult` is 2 at the end of the game, 1
      otherwise); only a scoring during the game marks the sector scored. */
  function ScoreSector(s: Sector, cells: map<Coord, Hex>, players: seq<Player>, endOfGame: bool): (r: (Sector, seq<Player>))
    requires Placed(s.systemHexes, cells)
    ensures |r.1| == |players|
    ensures forall i :: 0 <= i < |r.1| ==>
      r.1[i] == AddToScore(players[i], (if endOfGame then 2 else 1) * ScorePlayerExploit(s, cells, players[i].color))
    ensures r.0.isScored == (s.isScored || !endOfGame)
    ensures r.0.id == s.id && r.0.systemHexes == s.systemHexes && r.0.isCentral == s.isCentral
  {
    var mult := if endOfGame then 2 else 1;
    var scored := ScoreHexes(s.systemHexes, cells, players, mult);
    (if endOfGame then s else SetScored(s), scored)
  }

  /** The levels of the occupied systems are shared out among the three
      colours: each occupied system counts for its controller only. */
  lemma {:induction false} PointsPartition(hexes: seq<Coord>, cells: map<Coord, Hex>)
    requires Placed(hexes, cells)
    ensures Points(hexes, cells, Blue) + Points(hexes, cells, Green) + Points(hexes, cells, Red)
         == OccupiedLevels(hexes, cells)
  {
    if hexes != [] {
      PointsPartition(hexes[1..], cells);
      var h := cells[hexes[0]];
      if h.controller.Some? {
        assert h.controller.value == Blue || h.controller.value == Green || h.controller.value == Red;
      }
    }
  }

  /** A colour controlling none of the listed systems gets nothing from them. */
  lemma {:induction false} PointsWithoutControl(hexes: seq<Coord>, cells: map<Coord, Hex>, c: PlayerColor)
    requires Placed(hexes, cells)
    requires forall i :: 0 <= i < |hexes| ==> !IsControlledBy(cells[hexes[i]], c)
    ensures Points(hexes, cells, c) == 0
  {
    if hexes != [] {
      PointsWithoutControl(hexes[1..], cells, c);
    }
  }

  /** Scoring a sector where nothing is occupied changes no score. */
  lemma UnoccupiedSectorScoresNothing(s: Sector, cells: map<Coord, Hex>, players: seq<Player>, endOfGame: bool)
    requires Placed(s.systemHexes, cells)
    requires !IsOccupied(s, cells)
    ensures ScoreSector(s, cells, players, endOfGame).1 == players
  {
    forall c: PlayerColor {
      PointsWithoutControl(s.systemHexes, cells, c);
    }
    var r := ScoreSector(s, cells, players, endOfGame).1;
    forall i | 0 <= i < |players|
      ensures r[i] == players[i]
    {
      assert ScorePlayerExploit(s, cells, players[i].color) == 0;
    }
  }

  /** Scoring the same sector during the game and at its end: the end
      scoring gives every player exactly twice as much. */
  lemma EndOfGameDoubles(s: Sector, cells: map<Coord, Hex>, players: seq<Player>, i: nat)
    requires Placed(s.systemHexes, cells) && i < |players|
    ensures ScoreSector(s, cells, players, true).1[i].score - players[i].score
         == 2 * (ScoreSector(s, cells, players, false).1[i].score - players[i].score)
  {
  }
}
