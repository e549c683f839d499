/** A ship: the unit of strength of a player. Its owner is fixed when it is
    built; it only ever changes three flags: deployed on the board, moved this
    round (Explore) and invaded this round (Exterminate). Every ship of a game
    lives in one table; a ship is named by its index in that table. */
module Ships {
  import opened Common

  type ShipId = nat

  datatype Ship = Ship(owner: PlayerColor, deployed: bool, hasMoved: bool, hasInvaded: bool)

  /** Every ship of the game, in creation order. */
  type ShipTable = seq<Ship>

  /** A ship as it leaves the shipyard: in the owner's reserve, fresh for the round. */
  function NewShip(owner: PlayerColor): (s: Ship)
    ensures s.owner == owner
    ensures !s.deployed && !s.hasMoved && !s.hasInvaded
  {
    Ship(owner, false, false, false)
  }

  function SetDeployed(s: Ship, deployed: bool): (r: Ship)
    ensures r.deployed == deployed
    ensures r.owner == s.owner && r.hasMoved == s.hasMoved && r.hasInvaded == s.hasInvaded
  {
    s.(deployed := deployed)
  }

  function SetHasMoved(s: Ship, hasMoved: bool): (r: Ship)
    ensures r.hasMoved == hasMoved
    ensures r.owner == s.owner && r.deployed == s.deployed && r.hasInvaded == s.hasInvaded
  {
    s.(hasMoved := hasMoved)
  }

  function SetHasInvaded(s: Ship, hasInvaded: bool): (r: Ship)
    ensures r.hasInvaded == hasInvaded
    ensures r.owner == s.owner && r.deployed == s.deployed && r.hasMoved == s.hasMoved
  {
    s.(hasInvaded := hasInvaded)
  }

  /** Start of a round: the ship may move and invade again; where it is does not change. */
  function ResetForNewTurn(s: Ship): (r: Ship)
    ensures !r.hasMoved && !r.hasInvaded
    ensures r.owner == s.owner && r.deployed == s.deployed
  {
    s.(hasMoved := false, hasInvaded := false)
  }

  /** Resetting is what clearing both round flags with the setters does, it
      cannot be told apart from a second reset, and a ship fresh from the
      shipyard is already reset. */
  lemma ResetForNewTurnProperties(s: Ship)
    ensures ResetForNewTurn(s) == SetHasInvaded(SetHasMoved(s, false), false)
    ensures ResetForNewTurn(ResetForNewTurn(s)) == ResetForNewTurn(s)
    ensures ResetForNewTurn(NewShip(s.owner)) == NewShip(s.owner)
  {
  }

  /** No setter can change the owner: whatever sequence of flag changes a ship
      goes through, it keeps the owner it was built with. */
  lemma OwnerIsFixed(s: Ship, b: bool)
    ensures SetDeployed(s, b).owner == s.owner
    ensures SetHasMoved(s, b).owner == s.owner
    ensures SetHasInvaded(s, b).owner == s.owner
    ensures ResetForNewTurn(s).owner == s.owner
  {
  }

  // ---------------------------------------------------------------------------
  // Flag changes applied to several ships of the table at once

  predicate ValidIds(table: ShipTable, ids: seq<ShipId>)
  {
    forall i :: 0 <= i < |ids| ==> ids[i] < |table|
  }

  /** Two tables that give every ship the same owner. */
  predicate SameOwners(table: ShipTable, t: ShipTable)
  {
    |t| == |table| && forall id :: 0 <= id < |table| ==> t[id].owner == table[id].owner
  }

  /** `setDeployed(b)` on every ship of `ids`. */
  function SetDeployedAll(table: ShipTable, ids: seq<ShipId>, b: bool): (r: ShipTable)
    ensures |r| == |table|
    ensures forall i :: 0 <= i < |r| && i in ids ==> r[i] == SetDeployed(table[i], b)
    ensures forall i :: 0 <= i < |r| && i !in ids ==> r[i] == table[i]
  {
    seq(|table|, i requires 0 <= i < |table| => if i in ids then SetDeployed(table[i], b) else table[i])
  }

  /** `setHasMoved(true)` on every ship of `ids`. */
  function SetMovedAll(table: ShipTable, ids: seq<ShipId>): (r: ShipTable)
    ensures |r| == |table|
    ensures forall i :: 0 <= i < |r| && i in ids ==> r[i] == SetHasMoved(table[i], true)
    ensures forall i :: 0 <= i < |r| && i !in ids ==> r[i] == table[i]
  {
    seq(|table|, i requires 0 <= i < |table| => if i in ids then SetHasMoved(table[i], true) else table[i])
  }

  /** `setHasInvaded(true)` on every ship of `ids`. */
  function SetInvadedAll(table: ShipTable, ids: seq<ShipId>): (r: ShipTable)
    ensures |r| == |table|
    ensures forall i :: 0 <= i < |r| && i in ids ==> r[i] == SetHasInvaded(table[i], true)
    ensures forall i :: 0 <= i < |r| && i !in ids ==> r[i] == table[i]
  {
    seq(|table|, i requires 0 <= i < |table| => if i in ids then SetHasInvaded(table[i], true) else table[i])
  }

  /** Undeploying one more ship is updating its entry of the table. */
  lemma SetDeployedAllSnoc(table: ShipTable, ids: seq<ShipId>, s: ShipId, b: bool)
    requires s < |table|
    ensures SetDeployedAll(table, ids + [s], b)
         == SetDeployedAll(table, ids, b)[s := SetDeployed(table[s], b)]
  {
    var lhs := SetDeployedAll(table, ids + [s], b);
    var rhs := SetDeployedAll(table, ids, b)[s := SetDeployed(table[s], b)];
    assert |lhs| == |rhs|;
    forall i | 0 <= i < |lhs|
      ensures lhs[i] == rhs[i]
    {
      if i == s {
        assert i in ids + [s];
      } else if i in ids {
        assert i in ids + [s];
      } else {
        assert i !in ids + [s];
      }
    }
  }

  /** Setting flags never changes an owner. */
  lemma SetFlagsKeepOwners(table: ShipTable, ids: seq<ShipId>, b: bool)
    ensures SameOwners(table, SetDeployedAll(table, ids, b))
    ensures SameOwners(table, SetMovedAll(table, ids))
    ensures SameOwners(table, SetInvadedAll(table, ids))
  {
  }
}
