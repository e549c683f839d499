/** The Explore command: the player moves fleets, one movement after the
    other, up to `4 - efficiency` movements. A movement starts on a hex the
    player controls, and steps to neighbouring hexes that are free or
    already the player's. At each step, ships can be picked up (only ships
    that have not moved yet this round) or dropped. A movement ends after
    two steps, on reaching the Tri-Prime, or when no neighbour can be
    entered. The fleet then lands on the hex reached.

    Between two decisions the fleet is off the board: its ships stand on no
    hex but stay deployed. The command keeps the board consistent. */
module ExploreCommand {
  import opened Common
  import opened Ships
  import opened Hexes
  import opened Boards
  import opened World
  import opened CommandData

  /** Steps a movement may take beyond its start hex. */
  const MAX_RANGE_EXPLORE := 2

  /** The bookkeeping a new Explore starts with. */
  function Start(p: PlayerColor, efficiency: int): (d: ExploreData)
    ensures d.player == p && d.allowed == 4 - efficiency && d.made == 0
    ensures d.path == [] && d.fleet == []
  {
    NewExploreData(p, 4 - efficiency)
  }

  // ---------------------------------------------------------------------------
  // Where a movement may start and go

  /** A hex a fleet of `p` may enter: free, or already held by `p`. */
  predicate Accessible(b: Board, p: PlayerColor, c: Coord)
  {
    c in b.cells && (!Hexes.IsOccupied(b.cells[c]) || IsControlledBy(b.cells[c], p))
  }

  /** A movement may start from a hex the player controls that holds a ship
      that has not moved yet and has a neighbour the fleet may enter. */
  predicate CanStartExplore(b: Board, table: ShipTable, p: PlayerColor, c: Coord)
  {
    && ControlledAt(b, c, p)
    && UnmovedShips(b.cells[c], table) != []
    && exists n :: n in b.cells[c].neighbors && Accessible(b, p, n)
  }

  /** The hexes offered as start hexes, in grid order. */
  function HexesCanStartExplore(b: Board, table: ShipTable, p: PlayerColor): (r: seq<Coord>)
    ensures forall c :: c in r ==> CanStartExplore(b, table, p, c)
    ensures Shaped(b) ==> forall c :: CanStartExplore(b, table, p, c) ==> c in r
  {
    Filter(b.order, c => CanStartExplore(b, table, p, c))
  }

  /** A start hex is accepted exactly when it is one of the hexes offered. */
  lemma StartAcceptedIffOffered(b: Board, table: ShipTable, p: PlayerColor, c: Coord)
    requires Shaped(b)
    ensures CanStartExplore(b, table, p, c) <==> c in HexesCanStartExplore(b, table, p)
  {
  }

  /** The start test as the shipped code writes it: it asks for a FREE
      neighbour, where the hexes offered only need one the fleet may enter. */
  predicate CanStartExploreAsWritten(b: Board, table: ShipTable, p: PlayerColor, c: Coord)
  {
    && c in b.cells
    && IsControlledBy(b.cells[c], p)
    && UnmovedShips(b.cells[c], table) != []
    && exists n :: n in b.cells[c].neighbors && n in b.cells && !Hexes.IsOccupied(b.cells[n])
  }

  /** The written test accepts no hex the corrected one refuses. */
  lemma AsWrittenStartStricter(b: Board, table: ShipTable, p: PlayerColor, c: Coord)
    ensures CanStartExploreAsWritten(b, table, p, c) ==> CanStartExplore(b, table, p, c)
  {
    if CanStartExploreAsWritten(b, table, p, c) {
      var n :| n in b.cells[c].neighbors && n in b.cells && !Hexes.IsOccupied(b.cells[n]);
      assert Accessible(b, p, n);
    }
  }

  /** Two neighbouring hexes held by Blue, one ship on each that has not moved.
      Both are offered as start hexes, and the written test refuses both: a
      player whose fleets are all surrounded by its own hexes is asked for a
      start hex and every answer is ignored. */
  lemma AsWrittenRefusesOfferedHex()
    ensures var a, c := Coord(0, 0), Coord(0, 1);
            var b := Board(map[a := Hex(a, 0, Some(Blue), [0], {c}), c := Hex(c, 0, Some(Blue), [1], {a})],
                           [], map[], [], c, [a, c]);
            var table := [Ship(Blue, true, false, false), Ship(Blue, true, false, false)];
            && a in HexesCanStartExplore(b, table, Blue)
            && !CanStartExploreAsWritten(b, table, Blue, a)
  {
    var a, c := Coord(0, 0), Coord(0, 1);
    var b := Board(map[a := Hex(a, 0, Some(Blue), [0], {c}), c := Hex(c, 0, Some(Blue), [1], {a})],
                   [], map[], [], c, [a, c]);
    var table := [Ship(Blue, true, false, false), Ship(Blue, true, false, false)];
    assert UnmovedShips(b.cells[a], table) == [0];
    assert Accessible(b, Blue, c);
    assert CanStartExplore(b, table, Blue, a);
  }

  /** Every hex of the path is a hex of the board. */
  predicate PathOnBoard(b: Board, d: ExploreData)
  {
    forall c :: c in d.path ==> c in b.cells
  }

  /** The neighbours of the current hex the fleet may enter, in grid order;
      nothing before a movement starts. */
  function HexesCanExploreNext(b: Board, d: ExploreData): (r: Option<seq<Coord>>)
    requires PathOnBoard(b, d)
    ensures r.None? <==> d.path == []
    ensures r.Some? ==> forall n :: n in r.value ==>
      n in b.cells[CurHex(d).value].neighbors && Accessible(b, d.player, n)
    ensures r.Some? && Shaped(b) ==> forall n :: n in b.cells[CurHex(d).value].neighbors && Accessible(b, d.player, n) ==> n in r.value
  {
    match CurHex(d)
    case None => None
    case Some(cur) => Some(Filter(b.order, n => n in b.cells[cur].neighbors && Accessible(b, d.player, n)))
  }

  /** Whether the fleet, once adjusted, still holds a ship: dropping keeps at
      least one, picking up needs enough ships that have not moved. */
  predicate FleetCondition(b: Board, table: ShipTable, d: ExploreData, cur: Coord, adjustment: int)
    requires cur in b.cells
  {
    if adjustment < 0 then |d.fleet| > -adjustment
    else if adjustment > 0 then |UnmovedShips(b.cells[cur], table)| >= adjustment
    else |d.fleet| > 0
  }

  /** A step is accepted towards a neighbour of the current hex the fleet may
      enter, when the fleet condition holds. */
  predicate CanExploreNext(b: Board, table: ShipTable, d: ExploreData, next: Coord, adjustment: int)
    requires PathOnBoard(b, d) && d.path != []
  {
    var cur := CurHex(d).value;
    && Accessible(b, d.player, next)
    && next in b.cells[cur].neighbors
    && FleetCondition(b, table, d, cur, adjustment)
  }

  /** A hex offered as next step is accepted without adjusting the fleet
      exactly when the fleet holds a ship; under the board's shape every
      accessible neighbour is offered. */
  lemma NextOfferedAccepted(b: Board, table: ShipTable, d: ExploreData, next: Coord)
    requires PathOnBoard(b, d) && d.path != []
    ensures next in HexesCanExploreNext(b, d).value ==> (CanExploreNext(b, table, d, next, 0) <==> d.fleet != [])
    ensures Shaped(b) && CanExploreNext(b, table, d, next, 0) ==> next in HexesCanExploreNext(b, d).value
  {
  }

  // ---------------------------------------------------------------------------
  // Moving ships between the current hex and the fleet

  /** A positive adjustment picks up the first ships of the current hex that
      have not moved, marking them as moved (nothing happens when there are
      too few); a negative one drops the first ships of the fleet on the
      current hex (as many as the fleet holds, at most). */
  function AdjustFleet(b: Board, table: ShipTable, d: ExploreData, adjustment: int)
    : (r: (Board, ShipTable, ExploreData))
    requires PathOnBoard(b, d) && d.path != [] && ValidIds(table, d.fleet)
    ensures r.0 == b.(cells := r.0.cells) && r.0.cells.Keys == b.cells.Keys && SameLayout(b, r.0)
    ensures forall c :: c in b.cells && c != CurHex(d).value ==> r.0.cells[c] == b.cells[c]
    ensures r.2 == d.(fleet := r.2.fleet)
    ensures |r.1| == |table| && ValidIds(r.1, r.2.fleet) && SameOwners(table, r.1)
    ensures adjustment > 0 && |UnmovedShips(b.cells[CurHex(d).value], table)| >= adjustment ==>
      r.2.fleet == d.fleet + UnmovedShips(b.cells[CurHex(d).value], table)[..adjustment]
    ensures adjustment < 0 ==>
      r.2.fleet == RemoveAll(d.fleet, d.fleet[..Min(-adjustment, |d.fleet|)])
      && r.0.cells[CurHex(d).value].ships == b.cells[CurHex(d).value].ships + d.fleet[..Min(-adjustment, |d.fleet|)]
      && r.1 == table
    ensures adjustment == 0 ==> r == (b, table, d)
  {
    var cur := CurHex(d).value;
    var h := b.cells[cur];
    if adjustment > 0 then
      var unmoved := UnmovedShips(h, table);
      if |unmoved| < adjustment then (b, table, d)
      else
        var taken := unmoved[..adjustment];
        assert forall i :: 0 <= i < |taken| ==> taken[i] in unmoved;
        (b.(cells := b.cells[cur := Hexes.RemoveShips(h, taken)]), SetMovedAll(table, taken),
         d.(fleet := d.fleet + taken))
    else if adjustment < 0 then
      var leave := d.fleet[..Min(-adjustment, |d.fleet|)];
      assert ValidIds(table, leave);
      (b.(cells := b.cells[cur := Hexes.AddShips(h, leave, table)]), table,
       d.(fleet := RemoveAll(d.fleet, leave)))
    else (b, table, d)
  }

  /** Adjusting the fleet only moves ships between the current hex and the
      fleet: together they hold the same ships before and after. */
  lemma AdjustFleetConserves(b: Board, table: ShipTable, d: ExploreData, adjustment: int)
    requires PathOnBoard(b, d) && d.path != [] && ValidIds(table, d.fleet)
    ensures var cur := CurHex(d).value;
            var r := AdjustFleet(b, table, d, adjustment);
            forall s :: s in r.0.cells[cur].ships || s in r.2.fleet <==> s in b.cells[cur].ships || s in d.fleet
  {
    var cur := CurHex(d).value;
    var h := b.cells[cur];
    var r := AdjustFleet(b, table, d, adjustment);
    if adjustment > 0 && |UnmovedShips(h, table)| >= adjustment {
      var taken := UnmovedShips(h, table)[..adjustment];
      forall s | s in taken
        ensures s in h.ships
      {
        assert s in UnmovedShips(h, table);
      }
    }
  }

  /** The decision "step to `next`, adjusting the fleet by `adjustment`".
      Before a movement starts there is no current hex, and the fleet test
      reads its ships: a null dereference. A refused step changes nothing;
      an accepted one adjusts the fleet and makes `next` the current hex. */
  function ExploreNext(b: Board, table: ShipTable, d: ExploreData, next: Coord, adjustment: int)
    : (r: Result<(Board, ShipTable, ExploreData)>)
    requires PathOnBoard(b, d) && ValidIds(table, d.fleet)
    ensures r.Err? <==> d.path == []
    ensures r.Err? ==> r.error == NullReference
    ensures r.Ok? ==> SameOwners(table, r.value.1)
    ensures d.path != [] && !CanExploreNext(b, table, d, next, adjustment) ==> r == Ok((b, table, d))
    ensures d.path != [] && CanExploreNext(b, table, d, next, adjustment) ==>
      && r.value.2.path == d.path + [next]
      && CurHex(r.value.2) == Some(next)
      && PathOnBoard(r.value.0, r.value.2)
      && ValidIds(r.value.1, r.value.2.fleet)
      && SameLayout(b, r.value.0)
  {
    if d.path == [] then Err(NullReference)
    else if !CanExploreNext(b, table, d, next, adjustment) then Ok((b, table, d))
    else
      var r := AdjustFleet(b, table, d, adjustment);
      CurHexFollowsPath(r.2, next);
      Ok((r.0, r.1, AddHexToPath(r.2, next)))
  }

  /** An accepted step leaves a fleet of at least one ship travelling, and the
      path one hex longer. */
  lemma AcceptedStepCarriesFleet(b: Board, table: ShipTable, d: ExploreData, next: Coord, adjustment: int)
    requires PathOnBoard(b, d) && ValidIds(table, d.fleet) && Distinct(d.fleet)
    requires d.path != [] && CanExploreNext(b, table, d, next, adjustment)
    ensures ExploreNext(b, table, d, next, adjustment).value.2.fleet != []
    ensures |ExploreNext(b, table, d, next, adjustment).value.2.path| == |d.path| + 1
  {
    if adjustment < 0 {
      RemoveAllPrefix(d.fleet, -adjustment);
    }
  }

  // ---------------------------------------------------------------------------
  // Ending a movement

  /** The fleet lands on the hex reached, the movement is counted and the
      path is cleared. Before a movement starts only the count moves. */
  function FinalizeMovement(b: Board, table: ShipTable, d: ExploreData): (r: (Board, ShipTable, ExploreData))
    requires PathOnBoard(b, d) && ValidIds(table, d.fleet)
    ensures r.1 == table
    ensures r.2.made == d.made + 1 && r.2.path == []
    ensures r.2.player == d.player && r.2.allowed == d.allowed
    ensures r.0 == b.(cells := r.0.cells) && r.0.cells.Keys == b.cells.Keys && SameLayout(b, r.0)
    ensures d.path == [] ==> r.0 == b && r.2.fleet == d.fleet
    ensures d.path != [] ==>
      && r.2.fleet == []
      && r.0.cells == b.cells[CurHex(d).value := Hexes.AddShips(b.cells[CurHex(d).value], d.fleet, table)]
  {
    match CurHex(d)
    case None => (b, table, ClearMovementPath(IncrementMovementsMade(d)))
    case Some(cur) =>
      var b' := b.(cells := b.cells[cur := Hexes.AddShips(b.cells[cur], d.fleet, table)]);
      (b', table, ClearMovementPath(IncrementMovementsMade(ClearFleet(d))))
  }

  /** The movement ends once it has taken its two steps, on reaching the
      Tri-Prime after at least one step, or when no neighbour can be entered. */
  predicate ShouldFinalizeMovement(b: Board, d: ExploreData, next: seq<Coord>)
    requires PathOnBoard(b, d) && d.path != []
  {
    || |d.path| > MAX_RANGE_EXPLORE
    || (|d.path| > 1 && IsTriPrime(b.cells[d.path[|d.path| - 1]]))
    || next == []
  }

  /** The command is over once every movement allowed is made, or when no
      movement is under way and none can start. */
  predicate IsFinished(b: Board, table: ShipTable, d: ExploreData)
  {
    || d.made >= d.allowed
    || (d.path == [] && HexesCanStartExplore(b, table, d.player) == [])
  }

  // ---------------------------------------------------------------------------
  // Running the command between decisions

  /** What the command waits for after running: a start hex, a next hex, or
      nothing once it is over (the next command then runs). */
  datatype Prompt = ChooseStart(starts: seq<Coord>) | ChooseNext(nexts: seq<Coord>) | Done

  datatype Step = Step(board: Board, table: ShipTable, data: ExploreData, prompt: Prompt)

  /** Runs the command until it needs a decision: a finished command lands
      the fleet and ends; without a movement under way the player picks a
      start hex; a movement that must end lands and the command runs again;
      otherwise the player picks the next hex. */
  function Execute(b: Board, table: ShipTable, d: ExploreData): (r: Step)
    requires PathOnBoard(b, d) && ValidIds(table, d.fleet)
    ensures r.table == table
    ensures r.data.made >= d.made && r.data.player == d.player && r.data.allowed == d.allowed
    ensures r.prompt.Done? ==> r.data.path == [] && r.data.made > d.made
    ensures r.prompt.ChooseStart? ==>
      && r.data.path == [] && r.prompt.starts == HexesCanStartExplore(r.board, table, d.player)
      && r.prompt.starts != [] && r.data.made < r.data.allowed
    ensures r.prompt.ChooseNext? ==>
      && r == Step(b, table, d, r.prompt)
      && 0 < |d.path| <= MAX_RANGE_EXPLORE && r.prompt.nexts != [] && d.made < d.allowed
    ensures PathOnBoard(r.board, r.data) && ValidIds(table, r.data.fleet)
    ensures SameLayout(b, r.board)
    decreases |d.path|
  {
    if IsFinished(b, table, d) then
      var f := FinalizeMovement(b, table, d);
      Step(f.0, f.1, f.2, Done)
    else if d.path == [] then
      Step(b, table, d, ChooseStart(HexesCanStartExplore(b, table, d.player)))
    else
      var next := HexesCanExploreNext(b, d).value;
      if ShouldFinalizeMovement(b, d, next) then
        var f := FinalizeMovement(b, table, d);
        var r := Execute(f.0, f.1, f.2);
        SameLayoutTrans(b, f.0, r.board);
        r
      else
        Step(b, table, d, ChooseNext(next))
  }

  // ---------------------------------------------------------------------------
  // The player's decisions

  /** "Start a movement from `c`": refused (nothing happens) unless the hex
      passes the start test; otherwise the path restarts at `c` and the
      command runs. */
  function StartExplore(b: Board, table: ShipTable, d: ExploreData, c: Coord): (r: Option<Step>)
    requires ValidIds(table, d.fleet)
    ensures r.Some? <==> CanStartExplore(b, table, d.player, c)
    ensures r.Some? ==> r.value == Execute(b, table, NewMovementPath(d, c))
    ensures r.Some? ==> StepKeeps(b, table, d, r.value)
  {
    if !CanStartExplore(b, table, d.player, c) then None
    else Some(Execute(b, table, NewMovementPath(d, c)))
  }

  /** A step of the command leaves the layout of the board, the table and
      the player as they were, and the path it keeps runs over the board. */
  predicate StepKeeps(b: Board, table: ShipTable, d: ExploreData, s: Step)
  {
    && SameLayout(b, s.board) && s.table == table && s.data.player == d.player
    && PathOnBoard(s.board, s.data) && ValidIds(table, s.data.fleet)
  }

  /** "Step to `next`": a refused step changes nothing; an accepted one is
      followed by running the command. */
  function ExploreNextDecision(b: Board, table: ShipTable, d: ExploreData, next: Coord, adjustment: int)
    : (r: Result<Option<Step>>)
    requires PathOnBoard(b, d) && ValidIds(table, d.fleet)
    ensures r.Err? <==> d.path == []
    ensures r.Ok? ==> (r.value.Some? <==> CanExploreNext(b, table, d, next, adjustment))
    ensures r.Ok? && r.value.Some? ==> SameOwners(table, r.value.value.table)
    ensures r.Ok? && r.value.Some? ==>
      var s := r.value.value;
      SameLayout(b, s.board) && s.data.player == d.player && PathOnBoard(s.board, s.data) && ValidIds(s.table, s.data.fleet)
  {
    if d.path == [] then Err(NullReference)
    else if !CanExploreNext(b, table, d, next, adjustment) then Ok(None)
    else
      var s := ExploreNext(b, table, d, next, adjustment).value;
      Ok(Some(Execute(s.0, s.1, s.2)))
  }

  /** "End this movement here": the fleet lands and the command runs. */
  function FinishCurrentMovement(b: Board, table: ShipTable, d: ExploreData): (r: Step)
    requires PathOnBoard(b, d) && ValidIds(table, d.fleet)
    ensures r.data.made > d.made
    ensures StepKeeps(b, table, d, r)
  {
    var f := FinalizeMovement(b, table, d);
    Execute(f.0, f.1, f.2)
  }

  /** "End the command": the fleet lands and the command is over. */
  function FinishCommand(b: Board, table: ShipTable, d: ExploreData): (r: Step)
    requires PathOnBoard(b, d) && ValidIds(table, d.fleet)
    ensures r.prompt.Done? && r.data.path == [] && r.data.made == d.made + 1
    ensures StepKeeps(b, table, d, r)
  {
    var f := FinalizeMovement(b, table, d);
    Step(f.0, f.1, f.2, Done)
  }

  // ---------------------------------------------------------------------------
  // What the command keeps between decisions

  /** The ships of the fleet exist, are distinct and the player's, and are
      deployed and marked as moved. */
  predicate FleetSound(table: ShipTable, d: ExploreData)
  {
    && ValidIds(table, d.fleet)
    && Distinct(d.fleet)
    && forall i :: 0 <= i < |d.fleet| ==>
         table[d.fleet[i]].owner == d.player && table[d.fleet[i]].deployed && table[d.fleet[i]].hasMoved
  }

  /** Between decisions: the placement rule holds, the fleet is sound and
      stands on no hex, a fleet only travels along a movement, and the
      current hex is one the fleet may enter. */
  predicate Transit(b: Board, table: ShipTable, d: ExploreData)
  {
    && Placement(b.cells, table)
    && PathOnBoard(b, d)
    && FleetSound(table, d)
    && (forall s :: s in d.fleet ==> OffBoard(b.cells, s))
    && (d.fleet != [] ==> d.path != [])
    && (d.path != [] ==> Accessible(b, d.player, CurHex(d).value))
  }

  /** A new command on a board satisfying the placement rule starts in transit. */
  lemma StartInTransit(b: Board, table: ShipTable, p: PlayerColor, efficiency: int)
    requires Placement(b.cells, table)
    ensures Transit(b, table, Start(p, efficiency))
  {
  }

  /** Starting a movement from an accepted hex keeps the invariant. */
  lemma StartKeepsTransit(b: Board, table: ShipTable, d: ExploreData, c: Coord)
    requires Transit(b, table, d)
    requires CanStartExplore(b, table, d.player, c)
    ensures Transit(b, table, NewMovementPath(d, c))
  {
    CurHexFollowsPath(d, c);
  }

  /** What an accepted pick-up yields: the first ships of the current hex
      that have not moved leave it marked as moved and join the fleet. */
  lemma TakeResult(b: Board, table: ShipTable, d: ExploreData, next: Coord, adjustment: int)
    requires PathOnBoard(b, d) && ValidIds(table, d.fleet) && d.path != [] && adjustment > 0
    requires CanExploreNext(b, table, d, next, adjustment)
    ensures var cur := CurHex(d).value;
            var taken := UnmovedShips(b.cells[cur], table)[..adjustment];
            ExploreNext(b, table, d, next, adjustment).value
              == (b.(cells := b.cells[cur := Hexes.RemoveShips(b.cells[cur], taken)]), SetMovedAll(table, taken),
                  d.(fleet := d.fleet + taken, path := d.path + [next]))
  {
  }

  /** Picking up ships keeps the invariant: they leave the current hex and
      stand on no other; none of them was in the fleet, whose ships have
      all moved. */
  lemma TakeTransit(b: Board, table: ShipTable, d: ExploreData, next: Coord, k: nat, r: (Board, ShipTable, ExploreData))
    requires Transit(b, table, d) && d.path != [] && Accessible(b, d.player, next)
    requires 0 < k <= |UnmovedShips(b.cells[CurHex(d).value], table)|
    requires var cur := CurHex(d).value;
             var taken := UnmovedShips(b.cells[cur], table)[..k];
             r == (b.(cells := b.cells[cur := Hexes.RemoveShips(b.cells[cur], taken)]), SetMovedAll(table, taken),
                   d.(fleet := d.fleet + taken, path := d.path + [next]))
    ensures Transit(r.0, r.1, r.2)
  {
    var cur := CurHex(d).value;
    var h := b.cells[cur];
    var unmoved := UnmovedShips(h, table);
    var taken := unmoved[..k];
    assert forall i :: 0 <= i < |taken| ==> taken[i] in unmoved;
    var t := SetMovedAll(table, taken);
    // the hex held ships, so it is the player's and so are they
    assert taken[0] in h.ships;
    TakenFleetSound(table, d, h, k, next);
    TableChangePlacement(b.cells, table, t);
    LeaveHexPlacement(b.cells, t, cur, taken);
    var h' := Hexes.RemoveShips(h, taken);
    var b1 := b.(cells := b.cells[cur := h']);
    var d1 := d.(fleet := d.fleet + taken, path := d.path + [next]);
    CurHexFollowsPath(d.(fleet := d1.fleet), next);
    assert Accessible(b1, d.player, next) by {
      if next == cur {
        assert h'.ships != [] ==> h'.controller == h.controller;
      }
    }
    forall s | s in d1.fleet
      ensures OffBoard(b1.cells, s)
    {
      if s in d.fleet {
        assert OffBoard(b.cells, s);
      } else {
        assert s in taken && s in h.ships;
      }
    }
  }

  /** The fleet stays sound when it picks up the first ships of the player's
      current hex that had not moved. */
  lemma TakenFleetSound(table: ShipTable, d: ExploreData, h: Hex, k: nat, next: Coord)
    requires FleetSound(table, d) && Sound(h, table) && IsControlledBy(h, d.player)
    requires forall i :: 0 <= i < |h.ships| ==> table[h.ships[i]].deployed
    requires k <= |UnmovedShips(h, table)|
    ensures FleetSound(SetMovedAll(table, UnmovedShips(h, table)[..k]),
                       d.(fleet := d.fleet + UnmovedShips(h, table)[..k], path := d.path + [next]))
    ensures SameOwners(table, SetMovedAll(table, UnmovedShips(h, table)[..k]))
    ensures forall id :: 0 <= id < |table| ==> SetMovedAll(table, UnmovedShips(h, table)[..k])[id].deployed == table[id].deployed
  {
    var unmoved := UnmovedShips(h, table);
    var taken := unmoved[..k];
    var t := SetMovedAll(table, taken);
    var fleet := d.fleet + taken;
    DistinctFilter(h.ships, (s: ShipId) => s < |table| && !table[s].hasMoved);
    assert forall i :: 0 <= i < |taken| ==> taken[i] in unmoved;
    forall i, j | 0 <= i < j < |fleet|
      ensures fleet[i] != fleet[j]
    {
      if i < |d.fleet| && j >= |d.fleet| {
        assert table[fleet[i]].hasMoved && !table[fleet[j]].hasMoved;
      }
    }
    forall i | 0 <= i < |fleet|
      ensures fleet[i] < |t| && t[fleet[i]].owner == d.player && t[fleet[i]].deployed && t[fleet[i]].hasMoved
    {
      if i >= |d.fleet| {
        assert fleet[i] in h.ships;
      }
    }
  }

  /** What an accepted drop yields: the first ships of the fleet land on the
      current hex and the rest travel on. */
  lemma DropResult(b: Board, table: ShipTable, d: ExploreData, next: Coord, adjustment: int)
    requires PathOnBoard(b, d) && ValidIds(table, d.fleet) && Distinct(d.fleet) && d.path != [] && adjustment < 0
    requires CanExploreNext(b, table, d, next, adjustment)
    ensures ValidIds(table, d.fleet[..-adjustment])
    ensures var cur := CurHex(d).value;
            ExploreNext(b, table, d, next, adjustment).value
              == (b.(cells := b.cells[cur := Hexes.AddShips(b.cells[cur], d.fleet[..-adjustment], table)]), table,
                  d.(fleet := d.fleet[-adjustment..], path := d.path + [next]))
  {
    RemoveAllPrefix(d.fleet, -adjustment);
  }

  /** Splitting a sound fleet: the ships dropped are distinct and the
      player's, deployed ships, and the ships travelling on are a sound fleet
      none of whose ships is dropped. */
  lemma FleetSplit(table: ShipTable, d: ExploreData, m: nat, next: Coord)
    requires FleetSound(table, d) && m <= |d.fleet|
    ensures Distinct(d.fleet[..m])
    ensures forall i :: 0 <= i < m ==>
      d.fleet[..m][i] < |table| && table[d.fleet[..m][i]].deployed && table[d.fleet[..m][i]].owner == d.player
    ensures FleetSound(table, d.(fleet := d.fleet[m..], path := d.path + [next]))
    ensures forall s :: s in d.fleet[m..] ==> s in d.fleet && s !in d.fleet[..m]
  {
    assert forall i :: 0 <= i < m ==> d.fleet[..m][i] == d.fleet[i];
    assert forall i :: 0 <= i < |d.fleet| - m ==> d.fleet[m..][i] == d.fleet[m + i];
  }

  /** Dropping ships keeps the invariant: they land on the current hex, free
      or the player's, and the rest of the fleet still stands nowhere. */
  lemma DropTransit(b: Board, table: ShipTable, d: ExploreData, next: Coord, m: nat, r: (Board, ShipTable, ExploreData))
    requires Transit(b, table, d) && d.path != [] && Accessible(b, d.player, next)
    requires 0 < m < |d.fleet| && ValidIds(table, d.fleet[..m])
    requires var cur := CurHex(d).value;
             r == (b.(cells := b.cells[cur := Hexes.AddShips(b.cells[cur], d.fleet[..m], table)]), table,
                   d.(fleet := d.fleet[m..], path := d.path + [next]))
    ensures Transit(r.0, r.1, r.2)
  {
    var cur := CurHex(d).value;
    var h := b.cells[cur];
    var leave := d.fleet[..m];
    FleetSplit(table, d, m, next);
    LandOnHexPlacement(b.cells, table, cur, leave, d.player);
    var h' := Hexes.AddShips(h, leave, table);
    var b1 := b.(cells := b.cells[cur := h']);
    var d1 := d.(fleet := d.fleet[m..], path := d.path + [next]);
    CurHexFollowsPath(d.(fleet := d1.fleet), next);
    assert Accessible(b1, d.player, next) by {
      if next == cur {
        assert IsControlledBy(h', d.player);
      }
    }
    forall s | s in d1.fleet
      ensures OffBoard(b1.cells, s)
    {
      assert OffBoard(b.cells, s);
    }
  }

  /** Every accepted step keeps the invariant. */
  lemma StepKeepsTransit(b: Board, table: ShipTable, d: ExploreData, next: Coord, adjustment: int)
    requires Transit(b, table, d) && d.path != []
    requires CanExploreNext(b, table, d, next, adjustment)
    ensures Transit(ExploreNext(b, table, d, next, adjustment).value.0,
                    ExploreNext(b, table, d, next, adjustment).value.1,
                    ExploreNext(b, table, d, next, adjustment).value.2)
  {
    if adjustment > 0 {
      TakeResult(b, table, d, next, adjustment);
      TakeTransit(b, table, d, next, adjustment, ExploreNext(b, table, d, next, adjustment).value);
    } else if adjustment < 0 {
      DropResult(b, table, d, next, adjustment);
      DropTransit(b, table, d, next, -adjustment, ExploreNext(b, table, d, next, adjustment).value);
    } else {
      CurHexFollowsPath(d, next);
    }
  }

  /** Ending a movement lands the whole fleet on the current hex and leaves
      no fleet and no path. */
  lemma FinalizeKeepsTransit(b: Board, table: ShipTable, d: ExploreData)
    requires Transit(b, table, d)
    ensures Transit(FinalizeMovement(b, table, d).0, FinalizeMovement(b, table, d).1, FinalizeMovement(b, table, d).2)
    ensures FinalizeMovement(b, table, d).2.fleet == []
  {
    if d.path != [] {
      LandOnHexPlacement(b.cells, table, CurHex(d).value, d.fleet, d.player);
    }
  }

  /** Running the command keeps the invariant. */
  lemma {:induction false} ExecuteKeepsTransit(b: Board, table: ShipTable, d: ExploreData)
    requires Transit(b, table, d)
    ensures Transit(Execute(b, table, d).board, Execute(b, table, d).table, Execute(b, table, d).data)
    decreases |d.path|
  {
    if IsFinished(b, table, d) {
      FinalizeKeepsTransit(b, table, d);
    } else if d.path != [] {
      var next := HexesCanExploreNext(b, d).value;
      if ShouldFinalizeMovement(b, d, next) {
        FinalizeKeepsTransit(b, table, d);
        var f := FinalizeMovement(b, table, d);
        ExecuteKeepsTransit(f.0, f.1, f.2);
      }
    }
  }

  /** Whatever the player decides, the invariant holds afterwards and the
      layout of the board is unchanged; so when the command is over every
      ship it moved has landed and the board is consistent. */
  lemma DecisionsKeepTransit(b: Board, table: ShipTable, d: ExploreData, c: Coord, adjustment: int)
    requires Transit(b, table, d)
    ensures StartExplore(b, table, d, c).Some? ==>
      var s := StartExplore(b, table, d, c).value; Transit(s.board, s.table, s.data) && SameLayout(b, s.board)
    ensures ExploreNextDecision(b, table, d, c, adjustment).Ok? && ExploreNextDecision(b, table, d, c, adjustment).value.Some? ==>
      var s := ExploreNextDecision(b, table, d, c, adjustment).value.value;
      Transit(s.board, s.table, s.data) && SameLayout(b, s.board)
    ensures var s := FinishCurrentMovement(b, table, d); Transit(s.board, s.table, s.data) && SameLayout(b, s.board)
    ensures var s := FinishCommand(b, table, d);
      Transit(s.board, s.table, s.data) && s.data.fleet == [] && SameLayout(b, s.board)
  {
    if CanStartExplore(b, table, d.player, c) {
      StartKeepsTransit(b, table, d, c);
      ExecuteKeepsTransit(b, table, NewMovementPath(d, c));
    }
    if d.path != [] && CanExploreNext(b, table, d, c, adjustment) {
      StepKeepsTransit(b, table, d, c, adjustment);
      var s := ExploreNext(b, table, d, c, adjustment).value;
      ExecuteKeepsTransit(s.0, s.1, s.2);
      SameLayoutTrans(b, s.0, Execute(s.0, s.1, s.2).board);
    }
    FinalizeKeepsTransit(b, table, d);
    var f := FinalizeMovement(b, table, d);
    ExecuteKeepsTransit(f.0, f.1, f.2);
    SameLayoutTrans(b, f.0, Execute(f.0, f.1, f.2).board);
  }

  /** When the command is over, the board it leaves is consistent. */
  lemma DoneConsistent(b: Board, table: ShipTable, s: Step)
    requires Consistent(b, table) && Transit(s.board, s.table, s.data) && SameLayout(b, s.board)
    ensures Consistent(s.board, s.table)
  {
    LayoutKept(b, s.board);
  }
}
