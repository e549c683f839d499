/** The plan phase: the players, one after the other in player order, each
    choose the commands they will carry out in the three phases of the
    perform phase. Once everybody has planned, the perform phase starts. */
module Plan {
  import opened Common
  import opened Players
  import opened Game
  import Perform

  /** `PlanState.execute`: the player at the counter's position is asked for
      a plan; once every player has planned, the perform phase starts from
      its beginning. A negative counter names no player. */
  function Run(g: Game): (r: Result<Outcome>)
    requires g.state.Planning?
    ensures 0 <= g.state.planCounter < |g.players| ==>
      var c := g.players[g.state.planCounter].color;
      r == Ok(Outcome(g.(current := Some(c)), ChooseCommands(c)))
    ensures g.state.planCounter < 0 ==> r == Err(IndexOutOfBounds)
    ensures g.state.planCounter >= |g.players| ==>
      r == Perform.Run(StartPerforming(g))
    ensures r.Ok? ==> r.value.game.players == g.players && r.value.game.turn == g.turn
  {
    var k := g.state.planCounter;
    if k < |g.players| then
      match SetCurrentPlayer(g, k)
      case Err(e) => Err(e)
      case Ok(g1) => Ok(Outcome(g1, ChooseCommands(g.players[k].color)))
    else
      Perform.Run(StartPerforming(g))
  }

  /** The game at the start of the plan phase. */
  function StartPlanning(g: Game): (r: Game)
  {
    g.(state := Planning(0))
  }

  /** The game at the start of the perform phase. */
  function StartPerforming(g: Game): (r: Game)
  {
    g.(state := Performing(PERFORM_START))
  }

  /** `PlanState.planCommands`: the current player's plan is recorded, the
      counter moves on and the phase runs again. Without a current player
      there is nobody to record the plan for. */
  function PlanCommands(g: Game, commands: seq<int>): (r: Result<Outcome>)
    requires g.state.Planning?
    ensures g.current.None? ==> r == Err(NullReference)
  {
    match g.current
    case None => Err(NullReference)
    case Some(c) =>
      Run(g.(players := UpdatePlayer(g.players, c, p => SetChosenCommands(p, commands)),
             state := Planning(g.state.planCounter + 1)))
  }

  /** A whole round of planning from a game waiting for a plan: each plan of
      `plans` answers the next question, for as long as plans are asked for. */
  function PlanRound(g: Game, plans: seq<seq<int>>): (r: Result<Outcome>)
    requires g.state.Planning?
    decreases |plans|
  {
    if plans == [] then Run(g)
    else
      match PlanCommands(g, plans[0])
      case Err(e) => Err(e)
      case Ok(o) => if o.game.state.Planning? then PlanRound(o.game, plans[1..]) else Ok(o)
  }

  /** One answer of a round: the planner's plan is recorded and nobody
      else's changes; planning goes on exactly while someone is left, with
      the next player asked. */
  lemma {:induction false} PlanStep(g: Game, commands: seq<int>)
    requires g.state.Planning? && 0 <= g.state.planCounter < |g.players|
    requires ColorsDistinct(g.players) && g.current == Some(g.players[g.state.planCounter].color)
    ensures var r := PlanCommands(g, commands); var k := g.state.planCounter;
      r.Ok? ==>
        && |r.value.game.players| == |g.players|
        && (forall i :: 0 <= i < |g.players| && i != k ==> r.value.game.players[i] == g.players[i])
        && r.value.game.players[k].chosenCommands == Some(commands)
        && (forall i :: 0 <= i < |g.players| ==> r.value.game.players[i].color == g.players[i].color)
        && (r.value.game.state.Planning? <==> k + 1 < |g.players|)
        && (r.value.game.state.Planning? ==>
              && r.value.game.state.planCounter == k + 1
              && r.value.game.current == Some(r.value.game.players[k + 1].color))
  {
    var k := g.state.planCounter;
    var c := g.players[k].color;
    var players' := UpdatePlayer(g.players, c, p => SetChosenCommands(p, commands));
    assert forall i :: 0 <= i < |g.players| && i != k ==> players'[i] == g.players[i] by {
      assert forall i :: 0 <= i < |g.players| && i != k ==> g.players[i].color != c;
    }
    assert players'[k] == SetChosenCommands(g.players[k], commands);
    var g1 := g.(players := players', state := Planning(k + 1));
    assert PlanCommands(g, commands) == Run(g1);
    if k + 1 < |g.players| {
      assert Run(g1).value.game == g1.(current := Some(players'[k + 1].color));
    } else {
      var g2 := StartPerforming(g1);
      assert Run(g1) == Perform.Run(g2);
      assert Perform.Run(g2).Ok? ==> Perform.Settled(g2, Perform.Run(g2).value);
    }
  }

  /** Planning records what was chosen: when every player answers in turn
      and the perform phase is reached, the player at position `k + j`
      planned `plans[j]`, the players before `k` are unchanged, and the
      order of the players is kept. */
  lemma {:induction false} PlanRoundRecords(g: Game, plans: seq<seq<int>>)
    requires g.state.Planning? && 0 <= g.state.planCounter <= |g.players|
    requires |plans| == |g.players| - g.state.planCounter && ColorsDistinct(g.players)
    requires g.state.planCounter < |g.players| ==> g.current == Some(g.players[g.state.planCounter].color)
    ensures var r := PlanRound(g, plans);
      r.Ok? && !r.value.game.state.Planning? ==>
        && |r.value.game.players| == |g.players|
        && (forall i :: 0 <= i < g.state.planCounter ==> r.value.game.players[i] == g.players[i])
        && (forall j :: 0 <= j < |plans| ==>
              r.value.game.players[g.state.planCounter + j].chosenCommands == Some(plans[j]))
        && (forall i :: 0 <= i < |g.players| ==> r.value.game.players[i].color == g.players[i].color)
    decreases |plans|
  {
    var k := g.state.planCounter;
    if plans != [] {
      PlanStep(g, plans[0]);
      var r1 := PlanCommands(g, plans[0]);
      if r1.Ok? && r1.value.game.state.Planning? {
        var g1 := r1.value.game;
        assert ColorsDistinct(g1.players) by {
          assert forall i :: 0 <= i < |g.players| ==> g1.players[i].color == g.players[i].color;
        }
        assert PlanRound(g, plans) == PlanRound(g1, plans[1..]);
        PlanRoundRecords(g1, plans[1..]);
        assert forall j :: 1 <= j < |plans| ==> plans[1..][j - 1] == plans[j];
      }
    }
  }
}
