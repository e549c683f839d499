/** An Expand started for a player whose reserve is empty. The command can
    add no ship, so it is over at once and the next player in the order
    should act. As written, the constructor of the command already hands
    over (it calls `finishExpand`), from inside the code that is starting it:
    the next player's command runs up to its first decision, then the code
    that was starting the Expand stores that Expand as the command under way
    and runs it, and since its quota is used up it hands over a second time.
    The player who was just asked for a decision is skipped. The rest of the
    model hands over once. */
module ExpandHandOver {
  import opened Common
  import opened Ships
  import opened Players
  import opened CommandData
  import opened Game
  import opened Perform
  import opened PerformDecisions
  import ExpandCommand

  /** As written: the hand-over of the constructor runs first; if it ends
      waiting for a player's decision, the stale Expand replaces that
      player's command and hands over again. (When the nested hand-over
      reached the exploit phase, the stale Expand starts the exploit phase
      once more, which leaves the same outcome.) */
  function EmptyReserveExpandAsWritten(g: Game): (r: Result<Outcome>)
    requires g.state.Performing? && PositionFits(g.state.perform, |g.players|)
    requires g.state.perform.index < |g.players|
    ensures r.Ok? ==> Settled(g, r.value)
  {
    match NextCommand(g)
    case Err(e) => Err(e)
    case Ok(o) =>
      if !Awaiting(o.game) then Ok(o)
      else
        var r := NextCommand(o.game);
        if r.Ok? then
          World.SameLayoutTrans(g.board, o.game.board, r.value.game.board);
          r
        else r
  }

  /** The discrepancy: when the single hand-over ends asking a player for a
      decision, the code as written moves on to a position strictly after
      that player's, or to the exploit phase, so that player never acts in
      this phase. */
  lemma {:induction false} AsWrittenSkipsAskedPlayer(g: Game)
    requires g.state.Performing? && PositionFits(g.state.perform, |g.players|)
    requires g.state.perform.index < |g.players|
    requires NextCommand(g).Ok? && Awaiting(NextCommand(g).value.game)
    ensures EmptyReserveExpandAsWritten(g).Ok? ==>
      var asked := NextCommand(g).value.game.state.perform;
      var r := EmptyReserveExpandAsWritten(g).value.game;
      r.state.Exploiting? || (r.state.Performing? && After(asked, r.state.perform))
  {
    var o := NextCommand(g).value;
    assert EmptyReserveExpandAsWritten(g) == NextCommand(o.game);
  }

  /** Corrected: an Expand of a player with an empty reserve, started with
      an efficiency of at most 4, has a quota of 0; running it changes
      nothing and hands over exactly once. */
  lemma {:induction false} EmptyReserveHandsOverOnce(g: Game, c: PlayerColor, efficiency: int)
    requires Waiting(g) && efficiency <= 4 && UnusedShips(g.table, c) == []
    requires CommandUnderWay(g) == ExpandCmd(ExpandCommand.Start(g.table, c, efficiency))
    ensures ExpandCommand.Quota(g.table, c, efficiency) == 0
    ensures Resume(g) == NextCommand(g)
  {
    var d := CommandUnderWay(g).expand;
    assert ExpandCommand.IsFinished(g.board, d);
    assert Carry(g, g.board, g.table, ExpandCmd(d)) == g;
  }
}
