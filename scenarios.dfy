/**
 * Concrete situations of play: the player on (5, 5) with the 3 AP of a new
 * game clicking nearby cells, and the enemy's first step from (2, 2).
 */
module Scenarios {
  import opened JsValues
  import Axial
  import opened WorldModel
  import opened GameContext
  import opened UseGame
  import opened GameFlow

  /** The player may move and stands on (5, 5) with 3 AP, as after a new game. */
  predicate FreshPlayerTurn(s: GameState)
  {
    AcceptsMoves(s) && PositionOf(s.playerUnit.value) == Some(Axial.Coord(5, 5)) && s.playerUnit.value.ap == Some(Int(3))
  }

  /** A new game on loaded tables is such a turn. */
  lemma NewGameIsFreshTurn(s: GameState)
    requires !s.isDataLoading && !Truthy(s.loadErrorText)
    ensures FreshPlayerTurn(GameStateReducer(s, StartNewGame))
  {
  }

  /** A click on a passable cost-1 cell at (6, 5) moves there and leaves 2 AP. */
  lemma StepOntoPlain(s: GameState)
    requires FreshPlayerTurn(s) && IsPassableAt(s, Axial.Coord(6, 5)) && MoveCostAt(s, Axial.Coord(6, 5)) == 1
    ensures var t := ClickCell(s, 6, 5);
      && PositionOf(t.playerUnit.value) == Some(Axial.Coord(6, 5))
      && t.playerUnit.value.ap == Some(Int(2))
      && t.(playerUnit := s.playerUnit) == s
  {
    assert Neighbor(Axial.Coord(5, 5), 0) == Axial.Coord(6, 5);
    assert AttemptMovePlayer(s, 6, 5) == Move(6, 5, Int(2));
  }

  /** (7, 5) is two steps away: even on a passable cell the click only sets the adjacency notice. */
  lemma ClickTwoStepsAway(s: GameState)
    requires FreshPlayerTurn(s) && IsPassableAt(s, Axial.Coord(7, 5))
    ensures ClickCell(s, 7, 5) == s.(systemNotice := "Move only to adjacent hex")
  {
    Axial.AdjacentIffDistanceOne(Axial.Coord(5, 5), Axial.Coord(7, 5));
    LocalHelpersAgree(Axial.Coord(5, 5), Axial.Coord(7, 5));
  }

  /** A neighbouring cell of cost 5 is out of reach of 3 AP. */
  lemma RidgeTooExpensive(s: GameState, c: Axial.Coord)
    requires FreshPlayerTurn(s) && IsPassableAt(s, c) && PlayerAdjacentTo(s.playerUnit.value, c) && MoveCostAt(s, c) == 5
    ensures ClickCell(s, c.q, c.r) == s.(systemNotice := "Not enough AP")
  {
    assert Axial.Coord(c.q, c.r) == c;
  }

  /**
   * An enemy at (2, 2) chasing a player at (5, 5) over open ground: (3, 2)
   * and (2, 3) are both one step closer, and (3, 2) comes first in the table.
   */
  lemma EnemyTieGoesToFirstDirection(s: GameState)
    requires s.enemyUnit.Some? && PositionOf(s.enemyUnit.value) == Some(Axial.Coord(2, 2))
    requires s.playerUnit.Some? && PositionOf(s.playerUnit.value) == Some(Axial.Coord(5, 5))
    requires IsPassableAt(s, Axial.Coord(3, 2)) && IsPassableAt(s, Axial.Coord(2, 3))
    ensures GetAxialDistance(Axial.Coord(3, 2), Axial.Coord(5, 5)) == GetAxialDistance(Axial.Coord(2, 3), Axial.Coord(5, 5)) == 5
    ensures EnemyStepPayload(s) == CoordPayload(Axial.Coord(3, 2))
  {
    FirstDirectionPursues(s);
    EnemyStepIsThePursuitStep(s, Axial.Coord(3, 2));
  }

  lemma FirstDirectionPursues(s: GameState)
    requires IsPassableAt(s, Axial.Coord(3, 2))
    ensures IsPursuitStep(s, Axial.Coord(2, 2), Axial.Coord(5, 5), Axial.Coord(3, 2))
  {
    var e, p, b := Axial.Coord(2, 2), Axial.Coord(5, 5), Axial.Coord(3, 2);
    assert b == Neighbor(e, 0);
    CandidatesAroundStart();
  }

  /** Around (2, 2) no candidate is closer than 5 to (5, 5), and (2, 2) itself is at 6. */
  lemma CandidatesAroundStart()
    ensures GetAxialDistance(Axial.Coord(3, 2), Axial.Coord(5, 5)) == 5
    ensures GetAxialDistance(Axial.Coord(2, 2), Axial.Coord(5, 5)) == 6
    ensures forall c :: c in EnemyCandidates(Axial.Coord(2, 2)) ==> GetAxialDistance(c, Axial.Coord(5, 5)) >= 5
  {
    assert EnemyCandidates(Axial.Coord(2, 2)) ==
      [Axial.Coord(3, 2), Axial.Coord(3, 1), Axial.Coord(2, 1), Axial.Coord(1, 2), Axial.Coord(1, 3), Axial.Coord(2, 3), Axial.Coord(2, 2)];
  }
}
