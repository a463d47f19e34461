/**
 * How the hook's operations drive the reducer: a click on a cell dispatches
 * the outcome of attemptMovePlayer, and ending the turn dispatches
 * END_PLAYER_TURN followed by the enemy step. The properties here are about
 * whole turns: rejected clicks, the AP budget, units standing on passable
 * cells, and the turn coming back to the player.
 */
module GameFlow {
  import opened JsValues
  import Axial
  import opened WorldModel
  import opened GameContext
  import opened UseGame

  /** The action a move outcome dispatches, if any. */
  function Dispatch(s: GameState, outcome: MoveOutcome): GameState
  {
    match outcome
    case NoAction => s
    case Notice(kind) => GameStateReducer(s, SetSystemNotice(Some(NoticeText(kind))))
    case Move(q, r, nextActionPoints) =>
      GameStateReducer(s, MovePlayer(MovePayload(Some(Int(q)), Some(Int(r)), Some(nextActionPoints))))
  }

  /** A click on the cell (q, r) of the map. */
  function ClickCell(s: GameState, q: int, r: int): GameState
  {
    Dispatch(s, AttemptMovePlayer(s, q, r))
  }

  /** The reducer applied to a sequence of actions, in order. */
  function ApplyActions(s: GameState, actions: seq<Action>): GameState
    decreases |actions|
  {
    if actions == [] then s else ApplyActions(GameStateReducer(s, actions[0]), actions[1..])
  }

  /** The "End turn" button: the turn ends and the enemy makes its one step. */
  function EndTurn(s: GameState): GameState
  {
    ApplyActions(s, CompletePlayerTurn(s))
  }

  // ---------------------------------------------------------------------
  // Clicks

  /** A rejected click changes nothing but the notice, and repeating it changes nothing more. */
  lemma RejectedClickIsIdempotent(s: GameState, q: int, r: int)
    requires !AttemptMovePlayer(s, q, r).Move?
    ensures SameGameplay(ClickCell(s, q, r), s)
    ensures AttemptMovePlayer(s, q, r).Notice? ==> ClickCell(s, q, r).systemNotice == NoticeText(AttemptMovePlayer(s, q, r).kind)
    ensures AttemptMovePlayer(s, q, r).NoAction? ==> ClickCell(s, q, r) == s
    ensures ClickCell(ClickCell(s, q, r), q, r) == ClickCell(s, q, r)
  {
    var t := ClickCell(s, q, r);
    SameGameplayKeepsOutcome(s, t, q, r);
  }

  /** The move checks read nothing that the notice can change. */
  lemma SameGameplayKeepsOutcome(s: GameState, t: GameState, q: int, r: int)
    requires SameGameplay(s, t)
    ensures AttemptMovePlayer(t, q, r) == AttemptMovePlayer(s, q, r)
  {
    assert t.terrainById == s.terrainById && t.worldCells == s.worldCells && t.playerUnit == s.playerUnit;
    assert t.isDataLoading == s.isDataLoading && t.loadErrorText == s.loadErrorText && t.activeTurnOwner == s.activeTurnOwner;
  }

  /**
   * An accepted click puts the player on the clicked cell, which is passable
   * and adjacent to where the player was, charges its move cost, and changes
   * nothing else.
   */
  lemma AcceptedClickMovesPlayer(s: GameState, q: int, r: int)
    requires AttemptMovePlayer(s, q, r).Move?
    ensures var t := ClickCell(s, q, r);
      var cost := MoveCostAt(s, Axial.Coord(q, r));
      && t.playerUnit.Some? && PositionOf(t.playerUnit.value) == Some(Axial.Coord(q, r))
      && IsPassableAt(s, Axial.Coord(q, r))
      && Axial.IsAdjacentAxial(PositionOf(s.playerUnit.value).value, Axial.Coord(q, r))
      && t.playerUnit.value.ap == Some(Minus(s.playerUnit.value.ap, cost))
      && (s.playerUnit.value.ap.Some? && s.playerUnit.value.ap.value.Int? ==>
            s.playerUnit.value.ap.value.value - cost >= 0)
      && t.playerUnit.value.hp == s.playerUnit.value.hp && t.playerUnit.value.power == s.playerUnit.value.power
      && t.(playerUnit := s.playerUnit) == s
  {
  }

  /** Before the tables load there is no player and the data is loading, so clicks do nothing. */
  lemma InitialStateIgnoresClicks(q: int, r: int)
    ensures InitialGameState.isDataLoading && InitialGameState.playerUnit.None? && InitialGameState.enemyUnit.None?
    ensures InitialGameState.activeTurnOwner == PlayerOwner && InitialGameState.systemNotice == ""
    ensures ClickCell(InitialGameState, q, r) == InitialGameState
  {
  }

  /** During the enemy's turn clicks are ignored. */
  lemma ClickIgnoredOutsidePlayerTurn(s: GameState, q: int, r: int)
    requires s.activeTurnOwner != PlayerOwner
    ensures ClickCell(s, q, r) == s
  {
  }

  /** The state after a run of clicks. */
  function ApplyClicks(s: GameState, targets: seq<Axial.Coord>): GameState
    decreases |targets|
  {
    if targets == [] then s else ApplyClicks(ClickCell(s, targets[0].q, targets[0].r), targets[1..])
  }

  /** The move cost of each click of the run that was accepted, summed. */
  function CostOfAcceptedClicks(s: GameState, targets: seq<Axial.Coord>): int
    decreases |targets|
  {
    if targets == [] then 0
    else
      var c := targets[0];
      var here := if AttemptMovePlayer(s, c.q, c.r).Move? then MoveCostAt(s, c) else 0;
      here + CostOfAcceptedClicks(ClickCell(s, c.q, c.r), targets[1..])
  }

  /** How many clicks of the run were accepted. */
  function AcceptedClicks(s: GameState, targets: seq<Axial.Coord>): nat
    decreases |targets|
  {
    if targets == [] then 0
    else
      var c := targets[0];
      (if AttemptMovePlayer(s, c.q, c.r).Move? then 1 else 0) + AcceptedClicks(ClickCell(s, c.q, c.r), targets[1..])
  }

  /** Every move cost of the table is at least 1. */
  predicate CostsPositive(terrainById: map<string, Terrain>)
  {
    forall id :: id in terrainById && terrainById[id].moveCost.Some? ==> terrainById[id].moveCost.value >= 1
  }

  lemma MoveCostBounds(s: GameState, c: Axial.Coord)
    ensures CostsNonNegative(s.terrainById) ==> MoveCostAt(s, c) >= 0
    ensures CostsPositive(s.terrainById) ==> MoveCostAt(s, c) >= 1
  {
    var terrain := TerrainAt(s, c);
    if terrain.Some? {
      var cell := GetCellByAxial(s.worldCells, c.q, c.r);
      assert terrain == Some(s.terrainById[cell.value.terrainId]);
    }
  }

  /**
   * After any run of clicks the AP is the starting AP minus the cost of the
   * cells moved onto, and never negative; clicks change neither the tables,
   * the enemy nor the turn. With positive costs at most `ap` clicks succeed.
   */
  lemma {:induction false} ClicksSpendAp(s: GameState, targets: seq<Axial.Coord>, ap: int)
    requires s.playerUnit.Some? && s.playerUnit.value.ap == Some(Int(ap)) && ap >= 0
    ensures var t := ApplyClicks(s, targets);
      && t.playerUnit.Some? && t.playerUnit.value.ap == Some(Int(ap - CostOfAcceptedClicks(s, targets)))
      && ap - CostOfAcceptedClicks(s, targets) >= 0
      && t.terrainById == s.terrainById && t.worldCells == s.worldCells
      && t.enemyUnit == s.enemyUnit && t.activeTurnOwner == s.activeTurnOwner
    ensures CostsNonNegative(s.terrainById) ==> CostOfAcceptedClicks(s, targets) >= 0
    ensures CostsPositive(s.terrainById) ==> AcceptedClicks(s, targets) <= CostOfAcceptedClicks(s, targets) <= ap
    decreases |targets|
  {
    if targets != [] {
      var c := targets[0];
      OneClickSpends(s, c, ap);
      var spent := if AttemptMovePlayer(s, c.q, c.r).Move? then MoveCostAt(s, c) else 0;
      ClicksSpendAp(ClickCell(s, c.q, c.r), targets[1..], ap - spent);
    }
  }

  /** One click of a run: the AP goes down by the cost when the move is accepted, and by nothing otherwise. */
  lemma OneClickSpends(s: GameState, c: Axial.Coord, ap: int)
    requires s.playerUnit.Some? && s.playerUnit.value.ap == Some(Int(ap)) && ap >= 0
    ensures var t := ClickCell(s, c.q, c.r);
      var spent := if AttemptMovePlayer(s, c.q, c.r).Move? then MoveCostAt(s, c) else 0;
      && t.playerUnit.Some? && t.playerUnit.value.ap == Some(Int(ap - spent)) && ap - spent >= 0
      && t.terrainById == s.terrainById && t.worldCells == s.worldCells
      && t.enemyUnit == s.enemyUnit && t.activeTurnOwner == s.activeTurnOwner
      && (CostsNonNegative(s.terrainById) ==> spent >= 0)
      && (CostsPositive(s.terrainById) && AttemptMovePlayer(s, c.q, c.r).Move? ==> spent >= 1)
  {
    MoveCostBounds(s, c);
    assert Axial.Coord(c.q, c.r) == c;
    if AttemptMovePlayer(s, c.q, c.r).Move? {
      AcceptedClickMovesPlayer(s, c.q, c.r);
    } else {
      RejectedClickIsIdempotent(s, c.q, c.r);
    }
  }


  // ---------------------------------------------------------------------
  // Ending the turn

  /**
   * Ending the turn in the player's turn hands it to the enemy, then back to
   * the player with AP reset to 3, whether or not the enemy moved; the
   * enemy lands where the step payload says; the tables and the notice are
   * kept. Outside the player's turn nothing happens.
   */
  lemma EndTurnReturnsToPlayer(s: GameState)
    ensures s.activeTurnOwner != PlayerOwner ==> EndTurn(s) == s
    ensures s.activeTurnOwner == PlayerOwner ==>
      var t := EndTurn(s);
      && GameStateReducer(s, EndPlayerTurn).activeTurnOwner == EnemyOwner
      && t.activeTurnOwner == PlayerOwner
      && t.playerUnit.Some? && t.playerUnit.value.ap == Some(Int(ActionPointsPerTurn))
      && (s.playerUnit.Some? ==> t.playerUnit.value == s.playerUnit.value.(ap := Some(Int(ActionPointsPerTurn))))
      && (s.playerUnit.None? ==> t.playerUnit.value == Unit(None, None, None, None, Some(Int(ActionPointsPerTurn))))
      && t.enemyUnit == GameStateReducer(s, EnemyDidStep(EnemyStepPayload(s))).enemyUnit
      && t.terrainById == s.terrainById && t.worldCells == s.worldCells && t.systemNotice == s.systemNotice
  {
    if s.activeTurnOwner == PlayerOwner {
      var actions := CompletePlayerTurn(s);
      var mid := GameStateReducer(s, actions[0]);
      var last := GameStateReducer(mid, actions[1]);
      assert actions[1..][1..] == [];
      assert ApplyActions(mid, actions[1..]) == last;
    }
  }

  /** Between the two actions of a turn end, the owner is the enemy, so no click is taken. */
  lemma NoClickDuringEnemyStep(s: GameState, q: int, r: int)
    ensures ClickCell(GameStateReducer(s, EndPlayerTurn), q, r) == GameStateReducer(s, EndPlayerTurn)
  {
  }

  // ---------------------------------------------------------------------
  // Invariants of play

  /** The player has an integer AP within the per-turn budget. */
  predicate ApInBudget(s: GameState)
  {
    s.playerUnit.Some? ==>
      s.playerUnit.value.ap.Some? && s.playerUnit.value.ap.value.Int? &&
      0 <= s.playerUnit.value.ap.value.value <= ActionPointsPerTurn
  }

  /** The unit exists, has integer coordinates, and stands on an existing passable cell. */
  predicate OnPassableCell(s: GameState, unit: Option<Unit>)
  {
    unit.Some? && PositionOf(unit.value).Some? && IsPassableAt(s, PositionOf(unit.value).value)
  }

  predicate UnitsOnPassableCells(s: GameState)
  {
    OnPassableCell(s, s.playerUnit) && OnPassableCell(s, s.enemyUnit)
  }

  /** The user's steps of play. */
  datatype Step = Click(q: int, r: int) | EndTurnStep | NewGame

  function ApplyStep(s: GameState, step: Step): GameState
  {
    match step
    case Click(q, r) => ClickCell(s, q, r)
    case EndTurnStep => EndTurn(s)
    case NewGame => GameStateReducer(s, StartNewGame)
  }

  /** A new game starts inside the AP budget, and on passable cells when the two start cells are. */
  lemma NewGameEstablishes(s: GameState)
    ensures ApInBudget(ApplyStep(s, NewGame))
    ensures IsPassableAt(s, StartAxialPosition) && IsPassableAt(s, Axial.Coord(2, 2)) ==>
              UnitsOnPassableCells(ApplyStep(s, NewGame))
  {
    var t := ApplyStep(s, NewGame);
    assert t.terrainById == s.terrainById && t.worldCells == s.worldCells;
    assert PositionOf(t.enemyUnit.value) == Some(Axial.Coord(2, 2));
  }

  /** With non-negative move costs every step keeps the AP within the budget. */
  lemma ApInBudgetPreserved(s: GameState, step: Step)
    requires ApInBudget(s) && CostsNonNegative(s.terrainById)
    ensures ApInBudget(ApplyStep(s, step))
  {
    match step
    case Click(q, r) =>
      var c := Axial.Coord(q, r);
      if AttemptMovePlayer(s, q, r).Move? {
        MoveCostBounds(s, c);
        AcceptedClickMovesPlayer(s, q, r);
      } else {
        RejectedClickIsIdempotent(s, q, r);
      }
    case EndTurnStep =>
      EndTurnReturnsToPlayer(s);
    case NewGame =>
      NewGameEstablishes(s);
  }

  /** The enemy step lands on the enemy's own cell or on a passable one. */
  lemma EnemyStepLandsSafely(s: GameState)
    requires s.enemyUnit.Some? && PositionOf(s.enemyUnit.value).Some?
    ensures var e := PositionOf(s.enemyUnit.value).value;
      exists b :: EnemyStepPayload(s) == CoordPayload(b) && (b == e || IsPassableAt(s, b))
  {
    var e := PositionOf(s.enemyUnit.value).value;
    if s.playerUnit.None? {
      assert EnemyStepPayload(s) == CoordPayload(e);
    } else if PositionOf(s.playerUnit.value).Some? {
      EnemyStepPursues(s);
    } else {
      var cands := EnemyCandidates(e);
      FilterThenFold(s, cands, None, e, None);
      GreedyOverWithoutPlayer(s, cands, e);
      assert EnemyStepPayload(s) == CoordPayload(e);
    }
  }

  /** Without an integer player position no distance compares, so the fold keeps its start. */
  lemma {:induction false} GreedyOverWithoutPlayer(s: GameState, candidates: seq<Axial.Coord>, start: Axial.Coord)
    ensures GreedyOver(s, candidates, None, start, None) == start
    decreases |candidates|
  {
    if candidates != [] {
      GreedyOverWithoutPlayer(s, candidates[1..], start);
    }
  }

  /**
   * Every step keeps both units present, positioned and on passable cells;
   * the tables never change during play.
   */
  lemma UnitsOnPassableCellsPreserved(s: GameState, step: Step)
    requires UnitsOnPassableCells(s)
    requires step.NewGame? ==> IsPassableAt(s, StartAxialPosition) && IsPassableAt(s, Axial.Coord(2, 2))
    ensures UnitsOnPassableCells(ApplyStep(s, step))
  {
    match step
    case Click(q, r) => ClickKeepsUnitsOnPassableCells(s, q, r);
    case EndTurnStep => EndTurnKeepsUnitsOnPassableCells(s);
    case NewGame => NewGameEstablishes(s);
  }

  lemma ClickKeepsUnitsOnPassableCells(s: GameState, q: int, r: int)
    requires UnitsOnPassableCells(s)
    ensures UnitsOnPassableCells(ClickCell(s, q, r))
  {
    var t := ClickCell(s, q, r);
    if AttemptMovePlayer(s, q, r).Move? {
      AcceptedClickMovesPlayer(s, q, r);
    } else {
      RejectedClickIsIdempotent(s, q, r);
    }
    SameTablesSamePassability(s, t, PositionOf(s.enemyUnit.value).value);
    SameTablesSamePassability(s, t, PositionOf(t.playerUnit.value).value);
  }

  lemma EndTurnKeepsUnitsOnPassableCells(s: GameState)
    requires UnitsOnPassableCells(s)
    ensures UnitsOnPassableCells(EndTurn(s))
  {
    EndTurnReturnsToPlayer(s);
    if s.activeTurnOwner == PlayerOwner {
      var b := EnemyStepKeepsEnemyOnPassableCell(s);
      UnitsAfterTurn(s, EndTurn(s), b);
    }
  }

  /** A state with the tables of `s`, the player of `s` and the enemy on the passable `b` keeps the invariant. */
  lemma UnitsAfterTurn(s: GameState, t: GameState, b: Axial.Coord)
    requires UnitsOnPassableCells(s) && IsPassableAt(s, b)
    requires t.terrainById == s.terrainById && t.worldCells == s.worldCells
    requires t.playerUnit.Some? && PositionOf(t.playerUnit.value) == PositionOf(s.playerUnit.value)
    requires t.enemyUnit.Some? && PositionOf(t.enemyUnit.value) == Some(b)
    ensures UnitsOnPassableCells(t)
  {
    SameTablesSamePassability(s, t, PositionOf(s.playerUnit.value).value);
    SameTablesSamePassability(s, t, b);
  }

  /** The enemy's step lands on the passable cell `b`, and the reducer puts the enemy there. */
  lemma EnemyStepKeepsEnemyOnPassableCell(s: GameState) returns (b: Axial.Coord)
    requires OnPassableCell(s, s.enemyUnit)
    ensures EnemyStepPayload(s) == CoordPayload(b) && IsPassableAt(s, b)
    ensures var t := GameStateReducer(s, EnemyDidStep(EnemyStepPayload(s)));
      t.enemyUnit.Some? && PositionOf(t.enemyUnit.value) == Some(b)
  {
    EnemyStepLandsSafely(s);
    var e := PositionOf(s.enemyUnit.value).value;
    b :| EnemyStepPayload(s) == CoordPayload(b) && (b == e || IsPassableAt(s, b));
    EnemyDidStepEffect(s, CoordPayload(b));
  }

  lemma SameTablesSamePassability(s: GameState, t: GameState, c: Axial.Coord)
    requires s.terrainById == t.terrainById && s.worldCells == t.worldCells
    ensures IsPassableAt(s, c) == IsPassableAt(t, c) && MoveCostAt(s, c) == MoveCostAt(t, c)
  {
  }

  /** With no enemy, the step's `{q: 0, r: 0}` fallback makes the reducer create an enemy with only a position. */
  lemma EndTurnWithoutEnemyCreatesOne(s: GameState)
    requires s.activeTurnOwner == PlayerOwner && s.enemyUnit.None?
    ensures EndTurn(s).enemyUnit == Some(Unit(Some(Int(0)), Some(Int(0)), None, None, None))
  {
    EndTurnReturnsToPlayer(s);
  }
}
