/**
 * The game-state reducer of Starcraft4x/src/context/GameContext.jsx: the state
 * record, the eight action kinds, and what each action does to the state.
 */
module GameContext {
  import opened JsValues
  import opened Axial
  import opened WorldModel

  const ActionPointsPerTurn := 3
  const StartAxialPosition := Coord(5, 5)
  const PlayerOwner := "player"
  const EnemyOwner := "enemy"

  /**
   * A unit record. Every field may be missing: spreading `null` (as
   * ENEMY_DID_STEP does when a unit is absent) yields an object that only
   * has the fields written after the spread. The enemy never has `ap`.
   */
  datatype Unit = Unit(q: Option<Number>, r: Option<Number>, hp: Option<Number>, power: Option<Number>, ap: Option<Number>)

  /** `{ ...unit }` where `unit` may be `null`. */
  function Spread(unit: Option<Unit>): Unit
  {
    if unit.Some? then unit.value else Unit(None, None, None, None, None)
  }

  /** The unit's position when both coordinates are integers. */
  function PositionOf(unit: Unit): Option<Coord>
  {
    if unit.q.Some? && unit.q.value.Int? && unit.r.Some? && unit.r.value.Int?
    then Some(Coord(unit.q.value.value, unit.r.value.value))
    else None
  }

  datatype GameState = GameState(
    terrainById: map<string, Terrain>,
    worldCells: seq<Cell>,
    playerUnit: Option<Unit>,
    enemyUnit: Option<Unit>,
    activeTurnOwner: string,
    isDataLoading: bool,
    loadErrorText: Option<string>,
    systemNotice: string)

  const InitialGameState := GameState(map[], [], None, None, PlayerOwner, true, None, "")

  const NewPlayerUnit := Unit(Some(Int(StartAxialPosition.q)), Some(Int(StartAxialPosition.r)), Some(Int(10)), Some(Int(2)), Some(Int(ActionPointsPerTurn)))
  const NewEnemyUnit := Unit(Some(Int(2)), Some(Int(2)), Some(Int(8)), Some(Int(1)), None)

  /** Payload of LOAD_STATIC_DATA; a missing payload has both fields missing. `worldCells` is `None` unless it is an array. */
  datatype StaticData = StaticData(terrainById: Option<map<string, Terrain>>, worldCells: Option<seq<Cell>>)

  /** Payload of LOAD_SAVED_GAME: a persisted snapshot whose fields may each be missing. */
  datatype Snapshot = Snapshot(
    terrainById: Option<map<string, Terrain>>,
    worldCells: Option<seq<Cell>>,
    playerUnit: Option<Unit>,
    enemyUnit: Option<Unit>,
    activeTurnOwner: Option<string>)

  /** Payload of MOVE_PLAYER; `None` is a field whose `typeof` is not "number". */
  datatype MovePayload = MovePayload(q: Option<Number>, r: Option<Number>, nextActionPoints: Option<Number>)

  /** Payload of ENEMY_DID_STEP; `None` is a field whose `typeof` is not "number". */
  datatype StepPayload = StepPayload(q: Option<Number>, r: Option<Number>)

  datatype Action =
    | LoadStaticData(data: StaticData)
    | SetLoadError(errorText: Option<string>)
    | StartNewGame
    | LoadSavedGame(snapshot: Snapshot)
    | MovePlayer(move: MovePayload)
    | EndPlayerTurn
    | EnemyDidStep(step: StepPayload)
    | SetSystemNotice(notice: Option<string>)
    | OtherAction(actionType: string)  // any other `type`

  function GameStateReducer(s: GameState, action: Action): GameState
  {
    match action
    case LoadStaticData(data) =>
      s.(terrainById := Coalesce(data.terrainById, s.terrainById),
         worldCells := Coalesce(data.worldCells, s.worldCells),
         isDataLoading := false, loadErrorText := None, systemNotice := "")
    case SetLoadError(errorText) =>
      s.(isDataLoading := false, loadErrorText := errorText)
    case StartNewGame =>
      s.(playerUnit := Some(NewPlayerUnit), enemyUnit := Some(NewEnemyUnit),
         activeTurnOwner := PlayerOwner, systemNotice := "")
    case LoadSavedGame(snap) =>
      s.(terrainById := Coalesce(snap.terrainById, s.terrainById),
         worldCells := Coalesce(snap.worldCells, s.worldCells),
         playerUnit := if snap.playerUnit.Some? then snap.playerUnit else s.playerUnit,
         enemyUnit := if snap.enemyUnit.Some? then snap.enemyUnit else s.enemyUnit,
         activeTurnOwner := Coalesce(snap.activeTurnOwner, s.activeTurnOwner),
         isDataLoading := false, loadErrorText := None, systemNotice := "")
    case MovePlayer(move) =>
      if move.q.None? || move.r.None? || move.nextActionPoints.None? || s.playerUnit.None? then s
      else s.(playerUnit := Some(s.playerUnit.value.(q := move.q, r := move.r, ap := move.nextActionPoints)))
    case EndPlayerTurn =>
      s.(activeTurnOwner := EnemyOwner)
    case EnemyDidStep(step) =>
      var player := Some(Spread(s.playerUnit).(ap := Some(Int(ActionPointsPerTurn))));
      if step.q.None? || step.r.None? then s.(activeTurnOwner := PlayerOwner, playerUnit := player)
      else s.(enemyUnit := Some(Spread(s.enemyUnit).(q := step.q, r := step.r)),
              activeTurnOwner := PlayerOwner, playerUnit := player)
    case SetSystemNotice(notice) =>
      s.(systemNotice := Coalesce(notice, ""))
    case OtherAction(_) =>
      s
  }

  // ---------------------------------------------------------------------
  // What each action changes and what it keeps

  /** The parts of the state that gameplay reads: everything except the notice. */
  predicate SameGameplay(s: GameState, t: GameState)
  {
    s.(systemNotice := "") == t.(systemNotice := "")
  }

  lemma LoadStaticDataEffect(s: GameState, data: StaticData)
    ensures var t := GameStateReducer(s, LoadStaticData(data));
      && t.terrainById == (if data.terrainById.Some? then data.terrainById.value else s.terrainById)
      && t.worldCells == (if data.worldCells.Some? then data.worldCells.value else s.worldCells)
      && !t.isDataLoading && t.loadErrorText == None && t.systemNotice == ""
      && t.playerUnit == s.playerUnit && t.enemyUnit == s.enemyUnit && t.activeTurnOwner == s.activeTurnOwner
  {
  }

  lemma SetLoadErrorEffect(s: GameState, errorText: Option<string>)
    ensures GameStateReducer(s, SetLoadError(errorText)) == s.(isDataLoading := false, loadErrorText := errorText)
  {
  }

  /** A new game resets both units and the turn, whatever they were, and keeps the world. */
  lemma StartNewGameEffect(s: GameState)
    ensures var t := GameStateReducer(s, StartNewGame);
      && t.playerUnit == Some(Unit(Some(Int(5)), Some(Int(5)), Some(Int(10)), Some(Int(2)), Some(Int(3))))
      && PositionOf(t.playerUnit.value) == Some(StartAxialPosition)
      && t.enemyUnit == Some(Unit(Some(Int(2)), Some(Int(2)), Some(Int(8)), Some(Int(1)), None))
      && t.activeTurnOwner == PlayerOwner && t.systemNotice == ""
      && t.terrainById == s.terrainById && t.worldCells == s.worldCells
      && t.isDataLoading == s.isDataLoading && t.loadErrorText == s.loadErrorText
  {
  }

  lemma StartNewGameIdempotent(s: GameState)
    ensures GameStateReducer(GameStateReducer(s, StartNewGame), StartNewGame) == GameStateReducer(s, StartNewGame)
  {
  }

  /** Reading back a loaded snapshot gives each present field exactly and keeps each absent one. */
  lemma LoadSavedGameRoundTrip(s: GameState, snap: Snapshot)
    ensures var t := GameStateReducer(s, LoadSavedGame(snap));
      && (snap.terrainById.Some? ==> t.terrainById == snap.terrainById.value)
      && (snap.terrainById.None? ==> t.terrainById == s.terrainById)
      && (snap.worldCells.Some? ==> t.worldCells == snap.worldCells.value)
      && (snap.worldCells.None? ==> t.worldCells == s.worldCells)
      && (snap.playerUnit.Some? ==> t.playerUnit == snap.playerUnit)
      && (snap.playerUnit.None? ==> t.playerUnit == s.playerUnit)
      && (snap.enemyUnit.Some? ==> t.enemyUnit == snap.enemyUnit)
      && (snap.enemyUnit.None? ==> t.enemyUnit == s.enemyUnit)
      && (snap.activeTurnOwner.Some? ==> t.activeTurnOwner == snap.activeTurnOwner.value)
      && (snap.activeTurnOwner.None? ==> t.activeTurnOwner == s.activeTurnOwner)
      && !t.isDataLoading && t.loadErrorText == None && t.systemNotice == ""
  {
  }

  /** The snapshot the game persists, taken from a state. */
  function SnapshotOf(s: GameState): Snapshot
  {
    Snapshot(Some(s.terrainById), Some(s.worldCells), s.playerUnit, s.enemyUnit, Some(s.activeTurnOwner))
  }

  /** Loading the snapshot of a state restores that state's five persisted fields, whatever the current state. */
  lemma LoadOwnSnapshot(current: GameState, saved: GameState)
    requires saved.playerUnit.Some? && saved.enemyUnit.Some?
    ensures var t := GameStateReducer(current, LoadSavedGame(SnapshotOf(saved)));
      t == saved.(isDataLoading := false, loadErrorText := None, systemNotice := "")
  {
  }

  /** A malformed MOVE_PLAYER, or one without a player, changes nothing. */
  lemma MovePlayerMalformed(s: GameState, move: MovePayload)
    requires move.q.None? || move.r.None? || move.nextActionPoints.None? || s.playerUnit.None?
    ensures GameStateReducer(s, MovePlayer(move)) == s
  {
  }

  /** A well-formed MOVE_PLAYER rewrites the player's q, r and ap and nothing else. */
  lemma MovePlayerEffect(s: GameState, q: Number, r: Number, nextAp: Number)
    requires s.playerUnit.Some?
    ensures var t := GameStateReducer(s, MovePlayer(MovePayload(Some(q), Some(r), Some(nextAp))));
      && t.playerUnit.Some?
      && t.playerUnit.value.q == Some(q) && t.playerUnit.value.r == Some(r) && t.playerUnit.value.ap == Some(nextAp)
      && t.playerUnit.value.hp == s.playerUnit.value.hp && t.playerUnit.value.power == s.playerUnit.value.power
      && t.(playerUnit := s.playerUnit) == s
  {
  }

  lemma EndPlayerTurnEffect(s: GameState)
    ensures GameStateReducer(s, EndPlayerTurn) == s.(activeTurnOwner := EnemyOwner)
  {
  }

  /**
   * ENEMY_DID_STEP always hands the turn back with full AP; the enemy moves
   * only when both coordinates are numbers.
   */
  lemma EnemyDidStepEffect(s: GameState, step: StepPayload)
    ensures var t := GameStateReducer(s, EnemyDidStep(step));
      && t.activeTurnOwner == PlayerOwner
      && t.playerUnit.Some? && t.playerUnit.value.ap == Some(Int(ActionPointsPerTurn))
      && (s.playerUnit.Some? ==> t.playerUnit.value == s.playerUnit.value.(ap := Some(Int(ActionPointsPerTurn))))
      && (step.q.None? || step.r.None? ==> t.enemyUnit == s.enemyUnit)
      && (step.q.Some? && step.r.Some? ==> t.enemyUnit.Some? && t.enemyUnit.value.q == step.q && t.enemyUnit.value.r == step.r)
      && (step.q.Some? && step.r.Some? && s.enemyUnit.Some? ==>
            t.enemyUnit.value.hp == s.enemyUnit.value.hp && t.enemyUnit.value.power == s.enemyUnit.value.power)
      && (step.q.Some? && step.r.Some? ==> t.enemyUnit == Some(Spread(s.enemyUnit).(q := step.q, r := step.r)))
      && t.terrainById == s.terrainById && t.worldCells == s.worldCells && t.systemNotice == s.systemNotice
      && t.isDataLoading == s.isDataLoading && t.loadErrorText == s.loadErrorText
  {
  }

  /** When there was no player, the step leaves a record that holds nothing but `ap`. */
  lemma EnemyDidStepWithoutPlayer(s: GameState, step: StepPayload)
    requires s.playerUnit.None?
    ensures GameStateReducer(s, EnemyDidStep(step)).playerUnit == Some(Unit(None, None, None, None, Some(Int(3))))
  {
  }

  /** SET_SYSTEM_NOTICE changes only the notice, defaulting it to the empty string. */
  lemma SetSystemNoticeEffect(s: GameState, notice: Option<string>)
    ensures var t := GameStateReducer(s, SetSystemNotice(notice));
      && t.systemNotice == (if notice.Some? then notice.value else "")
      && SameGameplay(s, t)
  {
  }

  lemma OtherActionUnchanged(s: GameState, actionType: string)
    ensures GameStateReducer(s, OtherAction(actionType)) == s
  {
  }
}
