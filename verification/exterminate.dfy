/** The Exterminate command: the player invades, one invasion after the
    other, up to `4 - efficiency` invasions. The target is a hex held by
    another player next to a hex of the player holding a ship that has not
    invaded yet this round; the player then commits ships from those
    neighbouring hexes, a batch at a time. Against defenders, both sides lose
    as many ships as the smaller side commits and the lost ships go back to
    their owners' reserves; attackers that survive land on the target, which
    the player then controls. Once the defenders are gone, further batches
    land without losses. */
module ExterminateCommand {
  import opened Common
  import opened Ships
  import opened Hexes
  import opened Boards
  import opened World
  import opened CommandData

  /** The bookkeeping a new Exterminate starts with. */
  function Start(p: PlayerColor, efficiency: int): (d: ExterminateData)
    ensures d.player == p && d.possible == 4 - efficiency && d.made == 0
    ensures d.invaded.None? && d.invading == []
  {
    NewExterminateData(p, 4 - efficiency)
  }

  // ---------------------------------------------------------------------------
  // Targets and the hexes invading them

  /** A hex `p` can invade from: one it holds with a ship that has not invaded. */
  predicate CanParticipate(b: Board, table: ShipTable, p: PlayerColor, n: Coord)
  {
    ControlledAt(b, n, p) && |UninvadedShips(b.cells[n], table)| > 0
  }

  /** A hex `p` can invade: held by someone else, next to a hex `p` can
      invade from. */
  predicate CanInvadeHex(b: Board, table: ShipTable, p: PlayerColor, c: Coord)
  {
    && c in b.cells
    && !IsControlledBy(b.cells[c], p)
    && Hexes.IsOccupied(b.cells[c])
    && exists n :: n in b.cells[c].neighbors && CanParticipate(b, table, p, n)
  }

  /** The targets offered: the systems `p` does not control that it can invade. */
  function HexesCanInvade(b: Board, table: ShipTable, p: PlayerColor): (r: seq<Coord>)
    ensures forall c :: c in r <==> c in b.systems && CanInvadeHex(b, table, p, c)
  {
    Filter(SystemsNotControlledBy(b, p), c => CanInvadeHex(b, table, p, c))
  }

  /** The neighbours of a target that take part in its invasion, in grid order. */
  function Participants(b: Board, table: ShipTable, p: PlayerColor, c: Coord): (r: seq<Coord>)
    requires c in b.cells
    ensures forall n :: n in r ==> n in b.cells[c].neighbors && CanParticipate(b, table, p, n)
    ensures Shaped(b) ==> forall n :: n in b.cells[c].neighbors && CanParticipate(b, table, p, n) ==> n in r
  {
    Filter(b.order, n => n in b.cells[c].neighbors && CanParticipate(b, table, p, n))
  }

  /** The ships that have not invaded on the listed hexes, counted together. */
  function UninvadedTotal(b: Board, table: ShipTable, cs: seq<Coord>): (n: nat)
    requires forall c :: c in cs ==> c in b.cells
  {
    if cs == [] then 0 else |UninvadedShips(b.cells[cs[0]], table)| + UninvadedTotal(b, table, cs[1..])
  }

  /** Every hex taking part has a ship to commit, so the ships available for
      an invasion are at least as many as the hexes taking part. */
  lemma {:induction false} UninvadedTotalBound(b: Board, table: ShipTable, p: PlayerColor, cs: seq<Coord>)
    requires forall c :: c in cs ==> c in b.cells && CanParticipate(b, table, p, c)
    ensures UninvadedTotal(b, table, cs) >= |cs|
  {
    if cs != [] {
      assert CanParticipate(b, table, p, cs[0]);
      UninvadedTotalBound(b, table, p, cs[1..]);
    }
  }

  /** The invasion's hexes are hexes of the board, and there are invading
      hexes only while there is a target. */
  predicate InvasionOnBoard(b: Board, d: ExterminateData)
  {
    && (d.invading != [] ==> d.invaded.Some?)
    && (d.invaded.Some? ==> d.invaded.value in b.cells)
    && forall c :: c in d.invading ==> c in b.cells
  }

  // ---------------------------------------------------------------------------
  // Running the command between decisions

  /** What the command waits for after running: a target, ships to commit
      from one of the invading hexes, or nothing once it is over. */
  datatype Prompt = ChooseTarget(targets: seq<Coord>) | ChooseShips(sources: seq<Coord>) | Done

  datatype Step = Step(board: Board, table: ShipTable, data: ExterminateData, prompt: Prompt)

  /** The command is over once every invasion allowed is made, or when no
      invasion is under way and no target is left. */
  predicate IsFinished(b: Board, table: ShipTable, d: ExterminateData)
  {
    d.made >= d.possible || (d.invading == [] && HexesCanInvade(b, table, d.player) == [])
  }

  /** The invasion under way ends and is counted. */
  function FinalizeInvasion(d: ExterminateData): (r: ExterminateData)
    ensures r.invaded.None? && r.invading == [] && r.made == d.made + 1
    ensures r.player == d.player && r.possible == d.possible && r.used == d.used && r.maxShips == d.maxShips
  {
    IncrementInvasionsMade(ClearInvasion(d))
  }

  /** Runs the command until it needs a decision: a finished command ends the
      invasion under way and stops; without a target the player picks one;
      while hexes can still commit ships the player picks ships; an invasion
      whose hexes are exhausted ends and the command runs again. Running
      never touches the board or the ships. */
  function Execute(b: Board, table: ShipTable, d: ExterminateData): (r: Step)
    ensures r.board == b && r.table == table
    ensures r.data.player == d.player && r.data.possible == d.possible && r.data.made >= d.made
    ensures r.prompt.Done? ==> r.data.invaded.None? && r.data.invading == [] && r.data.made > d.made
    ensures r.prompt.ChooseTarget? ==>
      && r.data.invaded.None? && r.data.made < r.data.possible
      && r.prompt.targets == HexesCanInvade(b, table, d.player)
      && (InvasionOnBoard(b, d) ==> r.data.invading == [] && r.prompt.targets != [])
    ensures r.prompt.ChooseShips? ==>
      r.data == d && d.invaded.Some? && r.prompt.sources == d.invading != [] && d.made < d.possible
    ensures InvasionOnBoard(b, d) ==> InvasionOnBoard(b, r.data)
    decreases if d.invaded.Some? then 1 else 0
  {
    if IsFinished(b, table, d) then Step(b, table, FinalizeInvasion(d), Done)
    else if d.invaded.None? then
      Step(b, table, d, ChooseTarget(HexesCanInvade(b, table, d.player)))
    else if d.invading != [] then Step(b, table, d, ChooseShips(d.invading))
    else Execute(b, table, FinalizeInvasion(d))
  }

  // ---------------------------------------------------------------------------
  // Committing ships to the invasion

  /** Defenders stand on the hex: someone other than `p` holds it. */
  predicate Defended(h: Hex, p: PlayerColor)
  {
    !IsControlledBy(h, p) && Hexes.IsOccupied(h)
  }

  /** The clash. Against defenders, `m` ships fall on each side, `m` being
      the smaller of the defenders' and the attackers' numbers: the first `m`
      defenders leave the target, the first `m` attackers leave their hex, and
      all of them go back to the reserve. Without defenders nobody falls. */
  function Clash(cells: map<Coord, Hex>, table: ShipTable, tgt: Coord, src: Coord, p: PlayerColor,
                 attackers: seq<ShipId>): (r: (map<Coord, Hex>, ShipTable, nat))
    requires tgt in cells && src in cells
    ensures r.2 <= |attackers| && r.2 <= |cells[tgt].ships|
    ensures !Defended(cells[tgt], p) ==> r == (cells, table, 0)
    ensures Defended(cells[tgt], p) ==> r.2 == Min(|cells[tgt].ships|, |attackers|)
    ensures |r.1| == |table|
    ensures r.0.Keys == cells.Keys
    ensures forall c :: c in cells && c != tgt && c != src ==> r.0[c] == cells[c]
    ensures forall c :: c in cells ==>
      r.0[c].pos == cells[c].pos && r.0[c].level == cells[c].level && r.0[c].neighbors == cells[c].neighbors
  {
    if !Defended(cells[tgt], p) then (cells, table, 0)
    else
      var defenders := cells[tgt].ships;
      var m := Min(|defenders|, |attackers|);
      var cells1 := cells[tgt := Hexes.RemoveShips(cells[tgt], defenders[..m])];
      var t1 := SetDeployedAll(table, defenders[..m], false);
      var cells2 := cells1[src := Hexes.RemoveShips(cells1[src], attackers[..m])];
      var t2 := SetDeployedAll(t1, attackers[..m], false);
      (cells2, t2, m)
  }

  /** Nobody's ships change hands in a clash. */
  lemma ClashOwners(cells: map<Coord, Hex>, table: ShipTable, tgt: Coord, src: Coord, p: PlayerColor,
                    attackers: seq<ShipId>)
    requires tgt in cells && src in cells
    ensures SameOwners(table, Clash(cells, table, tgt, src, p, attackers).1)
  {
  }

  /** The attackers that survive are marked as having invaded, leave their
      hex and land on the target; should the target still not be `p`'s, `p`
      takes it. */
  function Land(cells: map<Coord, Hex>, table: ShipTable, tgt: Coord, src: Coord, p: PlayerColor,
                survivors: seq<ShipId>): (r: (map<Coord, Hex>, ShipTable))
    requires tgt in cells && src in cells && ValidIds(table, survivors)
    ensures |r.1| == |table| && SameOwners(table, r.1)
    ensures r.0.Keys == cells.Keys
    ensures forall c :: c in cells && c != tgt && c != src ==> r.0[c] == cells[c]
    ensures forall c :: c in cells ==>
      r.0[c].pos == cells[c].pos && r.0[c].level == cells[c].level && r.0[c].neighbors == cells[c].neighbors
  {
    var t := SetInvadedAll(table, survivors);
    var cells1 := cells[src := Hexes.RemoveShips(cells[src], survivors)];
    var h := Hexes.AddShips(cells1[tgt], survivors, t);
    var h' := if !IsControlledBy(h, p) && |h.ships| > 0 then h.(controller := Some(p)) else h;
    (cells1[tgt := h'], t)
  }

  /** A batch may be committed while an invasion is under way, from one of
      its invading hexes, of at most as many ships as that hex holds that
      have not invaded. Nothing bounds the batch from below. */
  predicate CanAddShipsInvadingHex(b: Board, table: ShipTable, d: ExterminateData, src: Coord, n: int)
    requires InvasionOnBoard(b, d)
  {
    d.invaded.Some? && src in d.invading && |UninvadedShips(b.cells[src], table)| >= n
  }

  /** The clash, then the survivors land. */
  function Resolve(cells: map<Coord, Hex>, table: ShipTable, tgt: Coord, src: Coord, p: PlayerColor,
                   attackers: seq<ShipId>): (r: (map<Coord, Hex>, ShipTable))
    requires tgt in cells && src in cells && ValidIds(table, attackers)
    ensures |r.1| == |table| && SameOwners(table, r.1)
    ensures r.0.Keys == cells.Keys
    ensures forall c :: c in cells && c != tgt && c != src ==> r.0[c] == cells[c]
    ensures forall c :: c in cells ==>
      r.0[c].pos == cells[c].pos && r.0[c].level == cells[c].level && r.0[c].neighbors == cells[c].neighbors
  {
    var c := Clash(cells, table, tgt, src, p, attackers);
    var m := c.2;
    ClashOwners(cells, table, tgt, src, p, attackers);
    if |attackers| > m then
      assert ValidIds(c.1, attackers[m..]);
      Land(c.0, c.1, tgt, src, p, attackers[m..])
    else (c.0, c.1)
  }

  /** The ships of `src` committed by a batch of `n`: its first `n` ships
      that have not invaded. */
  function Attackers(b: Board, table: ShipTable, src: Coord, n: nat): (r: seq<ShipId>)
    requires src in b.cells
    ensures |r| == Min(n, |UninvadedShips(b.cells[src], table)|)
    ensures ValidIds(table, r)
    ensures forall s :: s in r ==> s in UninvadedShips(b.cells[src], table)
  {
    var uninvaded := UninvadedShips(b.cells[src], table);
    // the acceptance test already bounds the batch by the ships available
    var k := Min(n, |uninvaded|);
    assert forall i :: 0 <= i < k ==> uninvaded[..k][i] in uninvaded;
    uninvaded[..k]
  }

  /** Commits a batch of `n` ships from `src`. The batch is counted, and a
      hex left without ships stops taking part. */
  function Commit(b: Board, table: ShipTable, d: ExterminateData, src: Coord, n: nat)
    : (r: (Board, ShipTable, ExterminateData))
    requires InvasionOnBoard(b, d) && CanAddShipsInvadingHex(b, table, d, src, n)
    ensures SameLayout(b, r.0) && |r.1| == |table| && SameOwners(table, r.1)
    ensures forall c :: c in b.cells && c != src && c != d.invaded.value ==> r.0.cells[c] == b.cells[c]
    ensures r.2 == d.(used := d.used + n, invading := r.2.invading)
    ensures r.2.invading == d.invading || r.2.invading == RemoveFirst(d.invading, src)
    ensures InvasionOnBoard(r.0, r.2)
  {
    var attackers := Attackers(b, table, src, n);
    var res := Resolve(b.cells, table, d.invaded.value, src, d.player, attackers);
    var d1 := d.(used := d.used + |attackers|);
    var d2 := if |res.0[src].ships| == 0 then RemoveInvadingHex(d1, src) else d1;
    (b.(cells := res.0), res.1, d2)
  }

  // ---------------------------------------------------------------------------
  // The player's decisions

  /** "Invade `c`": refused (nothing happens) unless `c` can be invaded;
      otherwise `c` becomes the target, its participating neighbours the
      invading hexes, no ship is used yet and the ships available are those
      of the invading hexes that have not invaded; then the command runs. */
  function StartInvadingHex(b: Board, table: ShipTable, d: ExterminateData, c: Coord): (r: Option<Step>)
    ensures r.Some? <==> CanInvadeHex(b, table, d.player, c)
    ensures r.Some? ==> r.value.board == b && r.value.table == table
    ensures r.Some? ==> InvasionOnBoard(b, r.value.data) && r.value.data.player == d.player
  {
    if !CanInvadeHex(b, table, d.player, c) then None
    else
      var invading := Participants(b, table, d.player, c);
      var d' := d.(invaded := Some(c), invading := invading, used := 0,
                   maxShips := UninvadedTotal(b, table, invading));
      Some(Execute(b, table, d'))
  }

  /** "Commit `n` ships from `src`": refused (nothing happens) unless the
      acceptance test passes; a negative batch passes it and fails on taking
      a sub-list whose end lies before its start; otherwise the batch is
      committed and the command runs. */
  function AddShipsInvadingHex(b: Board, table: ShipTable, d: ExterminateData, src: Coord, n: int)
    : (r: Result<Option<Step>>)
    requires InvasionOnBoard(b, d)
    ensures r.Err? <==> CanAddShipsInvadingHex(b, table, d, src, n) && n < 0
    ensures r.Err? ==> r.error == IllegalArgument
    ensures r.Ok? ==> (r.value.Some? <==> CanAddShipsInvadingHex(b, table, d, src, n))
    ensures r.Ok? && r.value.Some? ==>
      SameLayout(b, r.value.value.board) && InvasionOnBoard(r.value.value.board, r.value.value.data)
      && r.value.value.data.player == d.player && SameOwners(table, r.value.value.table)
  {
    if !CanAddShipsInvadingHex(b, table, d, src, n) then Ok(None)
    else if n < 0 then Err(IllegalArgument)
    else
      var s := Commit(b, table, d, src, n);
      Ok(Some(Execute(s.0, s.1, s.2)))
  }

  /** "End this invasion": it is counted and the command runs. */
  function FinishCurrentInvasion(b: Board, table: ShipTable, d: ExterminateData): (r: Step)
    ensures r.board == b && r.table == table && r.data.made > d.made
    ensures !r.prompt.ChooseShips?
    ensures InvasionOnBoard(b, r.data) && r.data.player == d.player
  {
    Execute(b, table, FinalizeInvasion(d))
  }

  /** "End the command": the invasion under way is counted and the command is over. */
  function FinishCommand(b: Board, table: ShipTable, d: ExterminateData): (r: Step)
    ensures r.board == b && r.table == table && r.prompt.Done?
    ensures r.data.invaded.None? && r.data.invading == [] && r.data.made == d.made + 1
    ensures r.data.player == d.player
  {
    Step(b, table, FinalizeInvasion(d), Done)
  }

  // ---------------------------------------------------------------------------
  // What a batch does

  /** How a batch changes the table: the ships `fallen` go back to the
      reserve, the ships `invaders` are marked as having invaded, and nothing
      else changes. */
  predicate Losses(table: ShipTable, t: ShipTable, fallen: seq<ShipId>, invaders: seq<ShipId>)
  {
    && |t| == |table|
    && forall id :: 0 <= id < |table| ==>
         && t[id].owner == table[id].owner
         && t[id].hasMoved == table[id].hasMoved
         && (t[id].deployed <==> table[id].deployed && id !in fallen)
         && (t[id].hasInvaded <==> table[id].hasInvaded || id in invaders)
  }

  /** The clash against defenders: the target keeps its defenders after the
      first `m` and loses its controller when none is left; the attacking
      hex loses the first `m` attackers; exactly those `2m` ships leave the
      board. */
  lemma ClashOutcome(cells: map<Coord, Hex>, table: ShipTable, tgt: Coord, src: Coord, p: PlayerColor,
                     attackers: seq<ShipId>)
    requires tgt in cells && src in cells && tgt != src
    requires Defended(cells[tgt], p) && Sound(cells[tgt], table)
    ensures var r := Clash(cells, table, tgt, src, p, attackers);
            var defenders := cells[tgt].ships;
            && r.0[tgt].ships == defenders[r.2..]
            && (r.2 == |defenders| ==> !Hexes.IsOccupied(r.0[tgt]))
            && (r.2 < |defenders| ==> r.0[tgt].controller == cells[tgt].controller)
            && (forall s :: s in r.0[src].ships <==> s in cells[src].ships && s !in attackers[..r.2])
            && (r.0[src].ships != [] ==> r.0[src].controller == cells[src].controller)
            && Losses(table, r.1, defenders[..r.2] + attackers[..r.2], [])
  {
    var r := Clash(cells, table, tgt, src, p, attackers);
    var defenders := cells[tgt].ships;
    RemoveAllPrefix(defenders, r.2);
    forall id | 0 <= id < |table|
      ensures id in defenders[..r.2] + attackers[..r.2] <==> id in defenders[..r.2] || id in attackers[..r.2]
    {
    }
  }

  /** The survivors land: they leave their hex and follow the target's ships,
      the target ends `p`'s, and they are marked as having invaded. */
  lemma LandOutcome(cells: map<Coord, Hex>, table: ShipTable, tgt: Coord, src: Coord, p: PlayerColor,
                    survivors: seq<ShipId>)
    requires tgt in cells && src in cells && tgt != src && ValidIds(table, survivors) && survivors != []
    requires Hexes.IsOccupied(cells[tgt]) ==> IsControlledBy(cells[tgt], p)
    requires table[survivors[0]].owner == p
    ensures var r := Land(cells, table, tgt, src, p, survivors);
            && r.0[tgt].ships == cells[tgt].ships + survivors
            && IsControlledBy(r.0[tgt], p)
            && (forall s :: s in r.0[src].ships <==> s in cells[src].ships && s !in survivors)
            && (r.0[src].ships != [] ==> r.0[src].controller == cells[src].controller)
            && Losses(table, r.1, [], survivors)
  {
  }

  /** A batch against at least as many defenders: every attacker falls,
      with as many defenders, and the target keeps the others. */
  lemma ResolveRepelled(cells: map<Coord, Hex>, table: ShipTable, tgt: Coord, src: Coord, p: PlayerColor,
                        attackers: seq<ShipId>)
    requires tgt in cells && src in cells && tgt != src && ValidIds(table, attackers)
    requires Defended(cells[tgt], p) && Sound(cells[tgt], table) && |attackers| <= |cells[tgt].ships|
    ensures var r := Resolve(cells, table, tgt, src, p, attackers);
            var defenders := cells[tgt].ships;
            var m := |attackers|;
            && r.0[tgt].ships == defenders[m..]
            && (m == |defenders| ==> !Hexes.IsOccupied(r.0[tgt]))
            && (m < |defenders| ==> r.0[tgt].controller == cells[tgt].controller)
            && (forall s :: s in r.0[src].ships <==> s in cells[src].ships && s !in attackers)
            && (r.0[src].ships != [] ==> r.0[src].controller == cells[src].controller)
            && Losses(table, r.1, defenders[..m] + attackers[..m], attackers[m..])
  {
    ClashOutcome(cells, table, tgt, src, p, attackers);
    assert attackers[..|attackers|] == attackers;
    assert attackers[|attackers|..] == [];
  }

  /** A batch against fewer defenders: they all fall, with as many
      attackers, and the survivors land and hold the target. */
  lemma ResolveConquers(cells: map<Coord, Hex>, table: ShipTable, tgt: Coord, src: Coord, p: PlayerColor,
                        attackers: seq<ShipId>)
    requires tgt in cells && src in cells && tgt != src && ValidIds(table, attackers)
    requires Defended(cells[tgt], p) && Sound(cells[tgt], table) && |attackers| > |cells[tgt].ships|
    requires forall i :: 0 <= i < |attackers| ==> table[attackers[i]].owner == p
    ensures var r := Resolve(cells, table, tgt, src, p, attackers);
            var defenders := cells[tgt].ships;
            var m := |defenders|;
            && r.0[tgt].ships == attackers[m..] && IsControlledBy(r.0[tgt], p)
            && (forall s :: s in r.0[src].ships <==> s in cells[src].ships && s !in attackers)
            && (r.0[src].ships != [] ==> r.0[src].controller == cells[src].controller)
            && Losses(table, r.1, defenders[..m] + attackers[..m], attackers[m..])
  {
    var c := Clash(cells, table, tgt, src, p, attackers);
    ClashOutcome(cells, table, tgt, src, p, attackers);
    ConquerLanding(cells, table, tgt, src, p, attackers, c.0, c.1, c.2, cells[tgt].ships[..c.2] + attackers[..c.2]);
  }

  /** The landing after the defenders have all fallen. */
  lemma ConquerLanding(cells: map<Coord, Hex>, table: ShipTable, tgt: Coord, src: Coord, p: PlayerColor,
                       attackers: seq<ShipId>, cells1: map<Coord, Hex>, t1: ShipTable, m: nat, fallen: seq<ShipId>)
    requires tgt in cells && src in cells && tgt in cells1 && src in cells1 && tgt != src
    requires m < |attackers| && ValidIds(table, attackers) && Losses(table, t1, fallen, [])
    requires forall i :: 0 <= i < |attackers| ==> table[attackers[i]].owner == p
    requires cells1[tgt].ships == [] && !Hexes.IsOccupied(cells1[tgt])
    requires forall s :: s in cells1[src].ships <==> s in cells[src].ships && s !in attackers[..m]
    requires cells1[src].ships != [] ==> cells1[src].controller == cells[src].controller
    ensures var r := Land(cells1, t1, tgt, src, p, attackers[m..]);
            && r.0[tgt].ships == attackers[m..] && IsControlledBy(r.0[tgt], p)
            && (forall s :: s in r.0[src].ships <==> s in cells[src].ships && s !in attackers)
            && (r.0[src].ships != [] ==> r.0[src].controller == cells[src].controller)
            && Losses(table, r.1, fallen, attackers[m..])
  {
    var survivors := attackers[m..];
    assert survivors[0] == attackers[m];
    LandOutcome(cells1, t1, tgt, src, p, survivors);
    var r := Land(cells1, t1, tgt, src, p, survivors);
    forall s
      ensures s in attackers <==> s in attackers[..m] || s in survivors
    {
      assert attackers == attackers[..m] + survivors;
    }
    if r.0[src].ships != [] {
      assert cells1[src].ships != [];
    }
  }

  /** A batch without defenders: every attacker lands, nobody falls. */
  lemma ResolveUndefended(cells: map<Coord, Hex>, table: ShipTable, tgt: Coord, src: Coord, p: PlayerColor,
                          attackers: seq<ShipId>)
    requires tgt in cells && src in cells && tgt != src && ValidIds(table, attackers) && attackers != []
    requires !Defended(cells[tgt], p)
    requires table[attackers[0]].owner == p
    ensures var r := Resolve(cells, table, tgt, src, p, attackers);
            && r.0[tgt].ships == cells[tgt].ships + attackers && IsControlledBy(r.0[tgt], p)
            && (forall s :: s in r.0[src].ships <==> s in cells[src].ships && s !in attackers)
            && (r.0[src].ships != [] ==> r.0[src].controller == cells[src].controller)
            && Losses(table, r.1, [], attackers)
  {
    assert attackers[0..] == attackers;
    LandOutcome(cells, table, tgt, src, p, attackers);
  }

  /** A batch of `n >= 1` ships against the target. Against `D` defenders,
      `min(D, n)` ships fall on each side and go back to the reserve: with
      more attackers the survivors hold the target, with as many the target
      is left empty and free, with fewer the remaining defenders keep it.
      Without defenders every attacker lands and nobody falls. Either way
      every committed ship leaves its hex, and the survivors are marked as
      having invaded. */
  lemma CommitOutcome(b: Board, table: ShipTable, d: ExterminateData, src: Coord, n: nat)
    requires Invasion(b, table, d) && CanAddShipsInvadingHex(b, table, d, src, n) && n >= 1
    ensures var r := Commit(b, table, d, src, n);
            var target := b.cells[d.invaded.value];
            var after := r.0.cells[d.invaded.value];
            var attackers := Attackers(b, table, src, n);
            var dd := |target.ships|;
            var m := if Defended(target, d.player) then Min(dd, n) else 0;
            && |attackers| == n
            && (Defended(target, d.player) && n > dd ==> after.ships == attackers[dd..] && IsControlledBy(after, d.player))
            && (Defended(target, d.player) && n == dd ==> after.ships == [] && !Hexes.IsOccupied(after))
            && (Defended(target, d.player) && n < dd ==> after.ships == target.ships[n..] && after.controller == target.controller)
            && (!Defended(target, d.player) ==> after.ships == target.ships + attackers && IsControlledBy(after, d.player))
            && (forall s :: s in r.0.cells[src].ships <==> s in b.cells[src].ships && s !in attackers)
            && Losses(table, r.1, target.ships[..m] + attackers[..m], attackers[m..])
  {
    var tgt := d.invaded.value;
    var attackers := Attackers(b, table, src, n);
    assert IsControlledBy(b.cells[src], d.player) && src != tgt;
    AttackersOwned(b, table, src, n, d.player);
    if Defended(b.cells[tgt], d.player) {
      if n <= |b.cells[tgt].ships| {
        ResolveRepelled(b.cells, table, tgt, src, d.player, attackers);
      } else {
        ResolveConquers(b.cells, table, tgt, src, d.player, attackers);
      }
    } else {
      ResolveUndefended(b.cells, table, tgt, src, d.player, attackers);
      assert attackers[..0] == [] && attackers[0..] == attackers;
    }
  }

  /** The attackers of a sound hex held by `p` are distinct ships of `p`
      standing on it. */
  lemma AttackersOwned(b: Board, table: ShipTable, src: Coord, n: nat, p: PlayerColor)
    requires src in b.cells && Sound(b.cells[src], table) && IsControlledBy(b.cells[src], p)
    ensures var attackers := Attackers(b, table, src, n);
            && Distinct(attackers)
            && (forall s :: s in attackers ==> s in b.cells[src].ships)
            && forall i :: 0 <= i < |attackers| ==> table[attackers[i]].owner == p
  {
    var h := b.cells[src];
    DistinctFilter(h.ships, (s: ShipId) => s < |table| && !table[s].hasInvaded);
    var attackers := Attackers(b, table, src, n);
    forall i | 0 <= i < |attackers|
      ensures table[attackers[i]].owner == p
    {
      assert attackers[i] in h.ships;
    }
  }

  // ---------------------------------------------------------------------------
  // What the command keeps between decisions

  /** Between decisions: the placement rule holds, the invasion's hexes are
      on the board, and the invading hexes are distinct hexes of the player,
      none of them the target. */
  predicate Invasion(b: Board, table: ShipTable, d: ExterminateData)
  {
    && Placement(b.cells, table)
    && InvasionOnBoard(b, d)
    && Distinct(d.invading)
    && forall c :: c in d.invading ==> IsControlledBy(b.cells[c], d.player) && d.invaded != Some(c)
  }

  /** The clash keeps the placement rule: the fallen ships leave the board
      before they go back to the reserve. */
  lemma ClashPlacement(cells: map<Coord, Hex>, table: ShipTable, tgt: Coord, src: Coord, p: PlayerColor,
                       attackers: seq<ShipId>)
    requires Placement(cells, table) && tgt in cells && src in cells && tgt != src
    requires forall s :: s in attackers ==> s in cells[src].ships
    ensures Placement(Clash(cells, table, tgt, src, p, attackers).0, Clash(cells, table, tgt, src, p, attackers).1)
  {
    if Defended(cells[tgt], p) {
      var defenders := cells[tgt].ships;
      var m := Min(|defenders|, |attackers|);
      var fallen := defenders[..m];
      var beaten := attackers[..m];
      var cells1 := cells[tgt := Hexes.RemoveShips(cells[tgt], fallen)];
      var t1 := SetDeployedAll(table, fallen, false);
      assert forall s :: s in fallen ==> s in defenders;
      ReturnToReservePlacement(cells, table, tgt, fallen);
      assert forall s :: s in beaten ==> s in cells1[src].ships by {
        assert forall s :: s in beaten ==> s in attackers;
      }
      ReturnToReservePlacement(cells1, t1, src, beaten);
    }
  }

  /** After the clash, the survivors still stand on the attacking hex, which
      is still the player's, and the target is free or the player's. */
  lemma ClashLeavesSurvivors(cells: map<Coord, Hex>, table: ShipTable, tgt: Coord, src: Coord, p: PlayerColor,
                             attackers: seq<ShipId>)
    requires Placement(cells, table) && tgt in cells && src in cells && tgt != src
    requires IsControlledBy(cells[src], p)
    requires Distinct(attackers) && forall s :: s in attackers ==> s in cells[src].ships
    ensures var c := Clash(cells, table, tgt, src, p, attackers);
            |attackers| > c.2 ==>
              && (forall s :: s in attackers[c.2..] ==> s in c.0[src].ships)
              && IsControlledBy(c.0[src], p)
              && (Hexes.IsOccupied(c.0[tgt]) ==> IsControlledBy(c.0[tgt], p))
  {
    if Defended(cells[tgt], p) {
      DefendedClashLeavesSurvivors(cells, table, tgt, src, p, attackers);
    } else {
      assert Clash(cells, table, tgt, src, p, attackers) == (cells, table, 0);
    }
  }

  /** The defended case: the first `m` attackers fell, the others still
      stand on the attacking hex, and the target was emptied. */
  lemma DefendedClashLeavesSurvivors(cells: map<Coord, Hex>, table: ShipTable, tgt: Coord, src: Coord, p: PlayerColor,
                                     attackers: seq<ShipId>)
    requires Placement(cells, table) && tgt in cells && src in cells && tgt != src
    requires IsControlledBy(cells[src], p) && Defended(cells[tgt], p)
    requires Distinct(attackers) && forall s :: s in attackers ==> s in cells[src].ships
    ensures var c := Clash(cells, table, tgt, src, p, attackers);
            |attackers| > c.2 ==>
              && (forall s :: s in attackers[c.2..] ==> s in c.0[src].ships)
              && IsControlledBy(c.0[src], p)
              && (Hexes.IsOccupied(c.0[tgt]) ==> IsControlledBy(c.0[tgt], p))
  {
    var c := Clash(cells, table, tgt, src, p, attackers);
    var m := c.2;
    assert Sound(cells[tgt], table);
    ClashOutcome(cells, table, tgt, src, p, attackers);
    if |attackers| > m {
      assert m == |cells[tgt].ships|;
      var survivors := attackers[m..];
      DistinctParts(attackers, m);
      assert forall s :: s in survivors ==> s in c.0[src].ships;
      assert survivors[0] in c.0[src].ships;
    }
  }

  /** The landing keeps the placement rule: the survivors are the player's
      deployed ships, they leave their hex and land on a target that is free
      or already the player's. */
  lemma LandPlacement(cells: map<Coord, Hex>, table: ShipTable, tgt: Coord, src: Coord, p: PlayerColor,
                      survivors: seq<ShipId>)
    requires Placement(cells, table) && tgt in cells && src in cells && tgt != src
    requires survivors != [] && Distinct(survivors) && forall s :: s in survivors ==> s in cells[src].ships
    requires IsControlledBy(cells[src], p)
    requires Hexes.IsOccupied(cells[tgt]) ==> IsControlledBy(cells[tgt], p)
    ensures ValidIds(table, survivors)
    ensures Placement(Land(cells, table, tgt, src, p, survivors).0, Land(cells, table, tgt, src, p, survivors).1)
  {
    SurvivorsOwned(cells, table, src, p, survivors);
    var t := SetInvadedAll(table, survivors);
    SetFlagsKeepOwners(table, survivors, true);
    TableChangePlacement(cells, table, t);
    MoveShipsPlacement(cells, t, src, tgt, survivors, p);
    LandUnfolds(cells, table, tgt, src, p, survivors);
  }

  /** Ships standing on a hex of `p` are deployed ships of `p`. */
  lemma SurvivorsOwned(cells: map<Coord, Hex>, table: ShipTable, src: Coord, p: PlayerColor, survivors: seq<ShipId>)
    requires Placement(cells, table) && src in cells && IsControlledBy(cells[src], p)
    requires forall s :: s in survivors ==> s in cells[src].ships
    ensures forall i :: 0 <= i < |survivors| ==>
      survivors[i] < |table| && table[survivors[i]].deployed && table[survivors[i]].owner == p
    ensures ValidIds(table, survivors)
  {
    forall i | 0 <= i < |survivors|
      ensures survivors[i] < |table| && table[survivors[i]].deployed && table[survivors[i]].owner == p
    {
      assert survivors[i] in cells[src].ships;
    }
  }

  /** The landing, spelled out: the survivors are marked, leave their hex
      and land on the target, which is then `p`'s without a change of hands. */
  lemma LandUnfolds(cells: map<Coord, Hex>, table: ShipTable, tgt: Coord, src: Coord, p: PlayerColor,
                    survivors: seq<ShipId>)
    requires tgt in cells && src in cells && tgt != src && ValidIds(table, survivors) && survivors != []
    requires Hexes.IsOccupied(cells[tgt]) ==> IsControlledBy(cells[tgt], p)
    requires table[survivors[0]].owner == p
    ensures var t := SetInvadedAll(table, survivors);
      var cells1 := cells[src := Hexes.RemoveShips(cells[src], survivors)];
      Land(cells, table, tgt, src, p, survivors) == (cells1[tgt := Hexes.AddShips(cells1[tgt], survivors, t)], t)
  {
    var t := SetInvadedAll(table, survivors);
    var cells1 := cells[src := Hexes.RemoveShips(cells[src], survivors)];
    assert cells1[tgt] == cells[tgt];
    assert t[survivors[0]].owner == p;
  }

  /** A batch keeps the placement rule, and the attacking hex stays the
      player's while it holds ships. */
  lemma ResolvePlacement(cells: map<Coord, Hex>, table: ShipTable, tgt: Coord, src: Coord, p: PlayerColor,
                         attackers: seq<ShipId>)
    requires Placement(cells, table) && tgt in cells && src in cells && tgt != src
    requires IsControlledBy(cells[src], p)
    requires Distinct(attackers) && forall s :: s in attackers ==> s in cells[src].ships
    ensures ValidIds(table, attackers)
    ensures var r := Resolve(cells, table, tgt, src, p, attackers);
            Placement(r.0, r.1) && (r.0[src].ships != [] ==> IsControlledBy(r.0[src], p))
  {
    assert ValidIds(table, attackers) by {
      assert forall i :: 0 <= i < |attackers| ==> attackers[i] in cells[src].ships;
    }
    if |attackers| > Clash(cells, table, tgt, src, p, attackers).2 {
      ResolveLanding(cells, table, tgt, src, p, attackers);
    } else {
      ResolveNoLanding(cells, table, tgt, src, p, attackers);
    }
  }

  /** The batch outnumbers the defenders: the survivors land. */
  lemma ResolveLanding(cells: map<Coord, Hex>, table: ShipTable, tgt: Coord, src: Coord, p: PlayerColor,
                       attackers: seq<ShipId>)
    requires Placement(cells, table) && tgt in cells && src in cells && tgt != src
    requires IsControlledBy(cells[src], p) && ValidIds(table, attackers)
    requires Distinct(attackers) && forall s :: s in attackers ==> s in cells[src].ships
    requires |attackers| > Clash(cells, table, tgt, src, p, attackers).2
    ensures var r := Resolve(cells, table, tgt, src, p, attackers);
            Placement(r.0, r.1) && (r.0[src].ships != [] ==> IsControlledBy(r.0[src], p))
  {
    var c := Clash(cells, table, tgt, src, p, attackers);
    ClashPlacement(cells, table, tgt, src, p, attackers);
    ClashLeavesSurvivors(cells, table, tgt, src, p, attackers);
    LandAfterClash(c.0, c.1, tgt, src, p, attackers[c.2..]);
    assert Resolve(cells, table, tgt, src, p, attackers) == Land(c.0, c.1, tgt, src, p, attackers[c.2..]);
  }

  /** Every attacker falls in the clash: nothing lands. */
  lemma ResolveNoLanding(cells: map<Coord, Hex>, table: ShipTable, tgt: Coord, src: Coord, p: PlayerColor,
                         attackers: seq<ShipId>)
    requires Placement(cells, table) && tgt in cells && src in cells && tgt != src
    requires IsControlledBy(cells[src], p) && ValidIds(table, attackers)
    requires forall s :: s in attackers ==> s in cells[src].ships
    requires |attackers| <= Clash(cells, table, tgt, src, p, attackers).2
    ensures var r := Resolve(cells, table, tgt, src, p, attackers);
            Placement(r.0, r.1) && (r.0[src].ships != [] ==> IsControlledBy(r.0[src], p))
  {
    var c := Clash(cells, table, tgt, src, p, attackers);
    ClashPlacement(cells, table, tgt, src, p, attackers);
    assert Resolve(cells, table, tgt, src, p, attackers) == (c.0, c.1);
    if Defended(cells[tgt], p) {
      ClashOutcome(cells, table, tgt, src, p, attackers);
    }
  }

  lemma LandAfterClash(cells: map<Coord, Hex>, table: ShipTable, tgt: Coord, src: Coord, p: PlayerColor,
                       survivors: seq<ShipId>)
    requires Placement(cells, table) && tgt in cells && src in cells && tgt != src
    requires survivors != [] && Distinct(survivors) && forall s :: s in survivors ==> s in cells[src].ships
    requires IsControlledBy(cells[src], p)
    requires Hexes.IsOccupied(cells[tgt]) ==> IsControlledBy(cells[tgt], p)
    ensures ValidIds(table, survivors)
    ensures var r := Land(cells, table, tgt, src, p, survivors);
            Placement(r.0, r.1) && (r.0[src].ships != [] ==> IsControlledBy(r.0[src], p))
  {
    LandPlacement(cells, table, tgt, src, p, survivors);
    assert survivors[0] in cells[src].ships;
    LandOutcome(cells, table, tgt, src, p, survivors);
  }

  /** A batch keeps the invariant: the placement rule holds, and a hex left
      without ships leaves the invading hexes while the others stay the
      player's. */
  lemma CommitKeepsInvasion(b: Board, table: ShipTable, d: ExterminateData, src: Coord, n: nat)
    requires Invasion(b, table, d) && CanAddShipsInvadingHex(b, table, d, src, n)
    ensures var r := Commit(b, table, d, src, n); Invasion(r.0, r.1, r.2)
  {
    var tgt := d.invaded.value;
    var attackers := Attackers(b, table, src, n);
    assert IsControlledBy(b.cells[src], d.player) && src != tgt;
    AttackersOwned(b, table, src, n, d.player);
    ResolvePlacement(b.cells, table, tgt, src, d.player, attackers);
    var r := Commit(b, table, d, src, n);
    DistinctRemoveFirst(d.invading, src);
    forall c | c in r.2.invading
      ensures IsControlledBy(r.0.cells[c], d.player) && r.2.invaded != Some(c)
    {
      assert c in d.invading;
    }
  }

  /** Choosing a target keeps the invariant: the invading hexes are distinct
      hexes of the player, and the target is not the player's. */
  lemma StartKeepsInvasion(b: Board, table: ShipTable, d: ExterminateData, c: Coord)
    requires Invasion(b, table, d) && Distinct(b.order) && CanInvadeHex(b, table, d.player, c)
    ensures var invading := Participants(b, table, d.player, c);
            Invasion(b, table, d.(invaded := Some(c), invading := invading, used := 0,
                                  maxShips := UninvadedTotal(b, table, invading)))
  {
    DistinctFilter(b.order, n => n in b.cells[c].neighbors && CanParticipate(b, table, d.player, n));
  }

  /** Running the command keeps the invariant. */
  lemma ExecuteKeepsInvasion(b: Board, table: ShipTable, d: ExterminateData)
    requires Invasion(b, table, d)
    ensures Invasion(b, table, Execute(b, table, d).data)
  {
  }

  /** Choosing a target, or ending the invasion or the command, keeps the
      invariant and the layout of the board. */
  lemma TargetDecisionsKeepInvasion(b: Board, table: ShipTable, d: ExterminateData, c: Coord)
    requires Invasion(b, table, d) && Distinct(b.order)
    ensures StartInvadingHex(b, table, d, c).Some? ==>
      var s := StartInvadingHex(b, table, d, c).value; Invasion(s.board, s.table, s.data) && SameLayout(b, s.board)
    ensures var s := FinishCurrentInvasion(b, table, d); Invasion(s.board, s.table, s.data) && SameLayout(b, s.board)
    ensures var s := FinishCommand(b, table, d); Invasion(s.board, s.table, s.data) && SameLayout(b, s.board)
  {
    if CanInvadeHex(b, table, d.player, c) {
      StartKeepsInvasion(b, table, d, c);
    }
  }

  /** Committing a batch keeps the invariant and the layout of the board. */
  lemma ShipsDecisionKeepsInvasion(b: Board, table: ShipTable, d: ExterminateData, src: Coord, n: int)
    requires Invasion(b, table, d)
    ensures AddShipsInvadingHex(b, table, d, src, n).Ok? && AddShipsInvadingHex(b, table, d, src, n).value.Some? ==>
      var s := AddShipsInvadingHex(b, table, d, src, n).value.value;
      Invasion(s.board, s.table, s.data) && SameLayout(b, s.board)
  {
    if CanAddShipsInvadingHex(b, table, d, src, n) && n >= 0 {
      CommitKeepsInvasion(b, table, d, src, n);
    }
  }

  /** A board that keeps its layout and the placement rule stays consistent
      through the whole command. */
  lemma InvasionConsistent(b: Board, table: ShipTable, s: Step)
    requires Consistent(b, table) && SameLayout(b, s.board) && Invasion(s.board, s.table, s.data)
    ensures Consistent(s.board, s.table)
  {
    LayoutKept(b, s.board);
  }
}
