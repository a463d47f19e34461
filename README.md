# Starcraft4x gameplay core in Dafny

Starcraft4x is a small turn-based hex strategy prototype written in
JavaScript (React). A player unit and an enemy unit stand on a map of axial
hex cells. Each cell has a terrain with a move cost and a passability flag.
In the player's turn a click on a neighbouring cell moves the player there,
if the terrain is passable and the unit has action points (AP) left for its
cost. Ending the turn hands it to the enemy. The enemy takes one greedy step
towards the player, and the turn comes back with the AP reset to 3. One
reducer holds the game state, and the map highlights the cells the player
can reach now.

This project models that core and proves properties of it:

- `Axial` (`axial.js`): the six-direction neighbour table, cube-metric
  distance and adjacency. Proved: table shape, closure under negation,
  symmetry, evenness of the cube sum, adjacency iff distance 1, and the
  triangle inequality.
- `HexMath` (`hexMath.js`): `axialDistance`. It agrees with the other two
  copies and is translation invariant.
- `Camera` (`camera.js`): the visible-cell filter as a function, and the
  `"q,r"` key set as a method with a loop. The key encoding is proved
  injective through a parse-back round trip.
- `GameContext` (`GameContext.jsx`): the state record, the eight actions
  and `gameStateReducer`, with one lemma per action stating what it changes
  and what it keeps.
- `UseGame` (`useGame.js`): cell and terrain lookup, and `attemptMovePlayer`
  as a function returning `NoAction`, `Notice(kind)` or `Move(q, r, ap)`.
  - The enemy step is proved against a fold, and the fold against a
    loop-free pursuit rule that determines the step uniquely.
  - The reachable-neighbour loop is a method proved against a filter. It is
    tied to `attemptMovePlayer`.
  - `CompletePlayerTurn` gives the actions ending a turn dispatches.
- `GameFlow`: a click dispatches the outcome of `attemptMovePlayer`, and
  ending a turn applies END_PLAYER_TURN, then ENEMY_DID_STEP. Proved:
  - rejected clicks are idempotent;
  - over any run of clicks, the AP is the start AP minus the cost of the
    accepted moves;
  - the turn comes back to the player;
  - the AP budget is an invariant of play when the terrain costs are
    non-negative;
  - "both units exist, have integer coordinates and stand on passable
    cells" is an invariant of play when the start cells (5, 5) and (2, 2)
    are passable.
- `Scenarios`: the opening position of a new game (player on (5, 5)
  with 3 AP, enemy on (2, 2)), for any map with the stated terrain. A click
  on a passable cost-1 neighbour leaves 2 AP. A click two cells away is
  refused, and so is a cost-5 neighbour. When two directions tie, the enemy
  takes the first one in table order.

## How JavaScript values are represented

- Every number slot a payload or a unit record can carry is an
  `Option<Number>`, where `Number = Int(int) | NaN`.
  - `None` is a missing field, or a value whose `typeof` is not
    `"number"`.
  - `NaN` is what arithmetic on a missing field produces. Every comparison
    with it is false (`JsValues.Minus`, `LessThan`, `AtMost`).
- Unit fields are all optional. ENEMY_DID_STEP spreads a unit that may be
  `null` (`{...null, ap: 3}`), which creates a record with only `ap`.
- `loadErrorText` is an `Option<string>`. It counts as set only when it is
  a non-empty string, as JavaScript truthiness has it.
- A terrain `moveCost` is `Option<int>`. `None` stands for a missing or
  non-finite cost, which the game charges as 1.
- Clocks, the 180 ms timer, fetching and storage are not modelled. The
  terrain table, the cell list and saved snapshots are parameters.

The code's behaviour worth knowing:
- cell lookup is a linear first-match scan (`UseGame.GetCellByAxial`), not
  an indexed table;
- the turn owner is a plain string that a snapshot may set to anything;
- the pending enemy step is never cancelled;
- ending a turn without an enemy creates one at (0, 0)
  (`GameFlow.EndTurnWithoutEnemyCreatesOne`).

## Model

| member | source | states |
|---|---|---|
| Axial.GetAxialDistance | Starcraft4x/src/components/axial.js:13-18 | no contract of its own; specified by Axial.DistanceSymmetric, DistanceNonNegative, CubeSumIsEven, DistanceZeroIff and TriangleInequality |
| Axial.IsAdjacentAxial | Starcraft4x/src/components/axial.js:20-27 | no contract of its own; specified by Axial.AdjacencySymmetric and AdjacentIffDistanceOne |
| Axial.OffsetTableShape | Starcraft4x/src/components/axial.js:4-11 | the table `NeighborOffsetsAxial` has six pairwise distinct entries, each at distance 1 from the origin |
| Axial.OffsetsClosedUnderNegation | Starcraft4x/src/components/axial.js:4-11 | every direction's opposite is also in the table |
| Axial.AdjacencySymmetric | Starcraft4x/src/components/axial.js:22-27 | a is adjacent to b iff b is adjacent to a |
| Axial.DistanceSymmetric | Starcraft4x/src/components/axial.js:14-19 | distance(a, b) = distance(b, a) |
| Axial.DistanceNonNegative | Starcraft4x/src/components/axial.js:14-19 | the distance is never negative |
| Axial.CubeSumIsEven | Starcraft4x/src/components/axial.js:15-18 | the cube sum is even, so halving it is exact and gives the distance |
| Axial.DistanceZeroIff | Starcraft4x/src/components/axial.js:14-19 | distance 0 iff the coordinates are equal |
| Axial.AdjacentIffDistanceOne | Starcraft4x/src/components/axial.js:14-27 | table adjacency and distance 1 are the same relation, both directions |
| Axial.TriangleInequality | Starcraft4x/src/components/axial.js:14-19 | distance(a, c) <= distance(a, b) + distance(b, c) |
| HexMath.AxialDistance | Starcraft4x/src/components/hexMath.js:26-31 | no contract of its own; specified by HexMath.AxialDistanceSymmetric, AxialDistanceNonNegative, AxialDistanceZeroIff, AxialDistanceAgrees and AxialDistanceTranslationInvariant |
| HexMath.AxialDistanceSymmetric | Starcraft4x/src/components/hexMath.js:26-31 | axialDistance is symmetric |
| HexMath.AxialDistanceNonNegative | Starcraft4x/src/components/hexMath.js:26-31 | axialDistance is never negative |
| HexMath.AxialDistanceZeroIff | Starcraft4x/src/components/hexMath.js:26-31 | axialDistance is 0 iff the coordinates are equal |
| HexMath.AxialDistanceAgrees | Starcraft4x/src/components/hexMath.js:26-31 | axialDistance equals getAxialDistance of axial.js on all inputs |
| HexMath.AxialDistanceTranslationInvariant | Starcraft4x/src/components/hexMath.js:27-30 | shifting both points leaves the distance unchanged; it depends only on the difference |
| Camera.CellsWithin | Starcraft4x/src/components/camera.js:6-8 | a cell is kept iff it is in the list and within the radius; kept cells keep their multiplicity and order |
| Camera.ComputeVisibleCellsAround | Starcraft4x/src/components/camera.js:4-9 | [] without a centre or a cell array; otherwise an order-preserving subsequence holding exactly the cells within the radius, each with its multiplicity in the input |
| Camera.VisibleAtRadiusZero | Starcraft4x/src/components/camera.js:6-8 | with radius 0, exactly the cells on the centre coordinate are visible |
| Camera.NatToDecimal | Starcraft4x/src/components/camera.js:40 | the numeral of a natural number is non-empty, all digits, with no leading zero |
| Camera.NatDecimalRoundTrip | Starcraft4x/src/components/camera.js:40 | parsing the numeral of n gives back n |
| Camera.IntDecimalRoundTrip | Starcraft4x/src/components/camera.js:40 | parsing the text of an integer gives it back, and that text has no comma |
| Camera.PositionKey | Starcraft4x/src/components/camera.js:40 | no contract of its own; specified by Camera.PositionKeyRoundTrip and PositionKeyInjective, and used by BuildReachableKeySet |
| Camera.PositionKeyRoundTrip | Starcraft4x/src/components/camera.js:40 | parsing the key "q,r" gives back the position |
| Camera.PositionKeyInjective | Starcraft4x/src/components/camera.js:40 | two positions have the same key iff they are equal |
| Camera.BuildReachableKeySet | Starcraft4x/src/components/camera.js:38-42 | the set holds exactly the keys of the listed positions; a position's key is in it iff the position is listed; its size is the number of distinct positions, at most the list length |
| GameContext.GameStateReducer | Starcraft4x/src/context/GameContext.jsx:41-148 | no contract of its own; each action is specified by one lemma, LoadStaticDataEffect through OtherActionUnchanged |
| GameContext.LoadStaticDataEffect | Starcraft4x/src/context/GameContext.jsx:43-55 | the tables are replaced only by present values; loading, error and notice are cleared; units and turn are kept |
| GameContext.SetLoadErrorEffect | Starcraft4x/src/context/GameContext.jsx:57-63 | only the loading flag (cleared) and the error text (set verbatim) change |
| GameContext.StartNewGameEffect | Starcraft4x/src/context/GameContext.jsx:65-81 | player at `StartAxialPosition` (5, 5) with hp 10, power 2, ap `ActionPointsPerTurn` (3); enemy at (2, 2) with hp 8, power 1; owner "player", notice ""; tables and load status kept |
| GameContext.StartNewGameIdempotent | Starcraft4x/src/context/GameContext.jsx:65-81 | starting a new game twice is the same as once |
| GameContext.LoadSavedGameRoundTrip | Starcraft4x/src/context/GameContext.jsx:83-102 | each present snapshot field is read back exactly, each absent one keeps its current value; loading, error and notice are cleared |
| GameContext.LoadOwnSnapshot | Starcraft4x/src/context/GameContext.jsx:83-102 | loading the snapshot of a state with both units restores its five persisted fields (tables, units, owner) whatever the current state, and clears loading, error and notice |
| GameContext.MovePlayerMalformed | Starcraft4x/src/context/GameContext.jsx:104-113 | a payload missing q, r or nextActionPoints, or a missing player, leaves the state unchanged |
| GameContext.MovePlayerEffect | Starcraft4x/src/context/GameContext.jsx:114-117 | a valid move sets the player's q, r and ap and changes nothing else |
| GameContext.EndPlayerTurnEffect | Starcraft4x/src/context/GameContext.jsx:120-122 | only the owner changes, to "enemy" |
| GameContext.EnemyDidStepEffect | Starcraft4x/src/context/GameContext.jsx:124-139 | the owner becomes "player" and the player's ap 3; the enemy record (or an empty one when there was none) takes the payload's q and r only when both are numbers, keeping its other fields; tables, notice and load status are kept |
| GameContext.EnemyDidStepWithoutPlayer | Starcraft4x/src/context/GameContext.jsx:124-139 | with no player, the step leaves a player record holding only ap 3 |
| GameContext.SetSystemNoticeEffect | Starcraft4x/src/context/GameContext.jsx:141-143 | only the notice changes, defaulting to "" |
| GameContext.OtherActionUnchanged | Starcraft4x/src/context/GameContext.jsx:145-146 | an unknown action type returns the state unchanged |
| UseGame.GetAxialDistance | Starcraft4x/src/hooks/useGame.js:17-23 | no contract of its own; equal to Axial.GetAxialDistance by UseGame.LocalHelpersAgree |
| UseGame.IsAdjacentAxial | Starcraft4x/src/hooks/useGame.js:25-31 | no contract of its own; equal to Axial.IsAdjacentAxial by UseGame.LocalHelpersAgree, and characterised by UseGame.AdjacentIsNeighbor |
| UseGame.LocalHelpersAgree | Starcraft4x/src/hooks/useGame.js:8-31 | the hook's own table `UseGame.NeighborOffsetsAxial`, distance and adjacency equal those of axial.js |
| UseGame.AdjacentIsNeighbor | Starcraft4x/src/hooks/useGame.js:26-31 | adjacent iff one of the six neighbours in table order |
| UseGame.GetCellByAxial | Starcraft4x/src/hooks/useGame.js:47-53 | None iff no cell has the coordinate; otherwise the first cell of the list that has it |
| UseGame.LookupWithUniqueCoordinates | Starcraft4x/src/hooks/useGame.js:47-53 | with unique coordinates, the lookup returns the one cell on each coordinate |
| UseGame.GetTerrainByCell | Starcraft4x/src/hooks/useGame.js:56-58 | None iff there is no cell or its terrain id is not in the table; otherwise the table's entry for that id |
| UseGame.AttemptMovePlayer | Starcraft4x/src/hooks/useGame.js:63-110 | each outcome holds iff its guards hold, in source order (no action, impassable, not adjacent, not enough AP); a move goes to the target, which is passable and adjacent, with ap - cost, never negative |
| UseGame.ImpassableReportedBeforeDistance | Starcraft4x/src/hooks/useGame.js:67-91 | an impassable target is reported as impassable even when it is not adjacent |
| UseGame.MoveChargesCost | Starcraft4x/src/hooks/useGame.js:93-109 | with an integer AP, a move charges exactly the cost and leaves at least 0 |
| UseGame.MissingApMovesWithNaN | Starcraft4x/src/hooks/useGame.js:97-109 | a player record without ap is never refused for AP, and moves with NaN |
| UseGame.PassableCandidates | Starcraft4x/src/hooks/useGame.js:139-143 | keeps, in order, exactly the candidates on passable cells; empty iff none is passable |
| UseGame.EnemyStepPayload | Starcraft4x/src/hooks/useGame.js:121-169 | no contract of its own; specified by UseGame.EnemyStep, EnemyStepPursues, EnemyStepIsThePursuitStep, EnemyStaysWhenBlocked and EnemyStepWithoutUnits |
| UseGame.EnemyStep | Starcraft4x/src/hooks/useGame.js:121-169 | the loop computes the step payload the fold specifies, including the missing-unit and no-candidate branches |
| UseGame.FilterThenFold | Starcraft4x/src/hooks/useGame.js:139-163 | filtering and then scanning equals one scan that skips impassable candidates |
| UseGame.GreedyOverIsFirstBest | Starcraft4x/src/hooks/useGame.js:154-163 | the strict-< scan stays when no passable candidate is closer, else picks the first passable candidate at the smallest distance |
| UseGame.EnemyStepPursues | Starcraft4x/src/hooks/useGame.js:131-168 | the target is the enemy's cell or a passable neighbour; it is never farther, strictly closer when it moves, no passable candidate is closer, and ties go to the first direction |
| UseGame.PursuitStepUnique | Starcraft4x/src/hooks/useGame.js:154-163 | at most one position satisfies the pursuit rule, so it determines the step |
| UseGame.EnemyStepIsThePursuitStep | Starcraft4x/src/hooks/useGame.js:131-168 | any position satisfying the pursuit rule is the payload the enemy step sends |
| UseGame.EnemyStaysWhenBlocked | Starcraft4x/src/hooks/useGame.js:146-152 | with no passable candidate the payload is the enemy's own position |
| UseGame.EnemyStepWithoutUnits | Starcraft4x/src/hooks/useGame.js:123-129 | without a player the payload is the enemy's position, and without an enemy it is (0, 0) |
| UseGame.AffordableAmong | Starcraft4x/src/hooks/useGame.js:181-197 | keeps, in order, exactly the positions on passable cells whose cost fits the AP |
| UseGame.ReachableNeighborCells | Starcraft4x/src/hooks/useGame.js:176-200 | no contract of its own; specified by UseGame.GetReachableNeighborCells, ReachableNeighborProperties and ReachableIffMoveAccepted |
| UseGame.GetReachableNeighborCells | Starcraft4x/src/hooks/useGame.js:176-200 | the loop returns the filtered neighbour list of the specification |
| UseGame.ReachableNeighborProperties | Starcraft4x/src/hooks/useGame.js:176-200 | [] without a player or with ap <= 0; at most 6 cells in table order; a cell is listed iff adjacent, passable and ap - cost >= 0 |
| UseGame.ReachableIffMoveAccepted | Starcraft4x/src/hooks/useGame.js:176-200 | with a positive integer AP in the player's turn, a cell is highlighted iff clicking it moves the player |
| UseGame.ZeroApFreeStepNotHighlighted | Starcraft4x/src/hooks/useGame.js:177 | with ap 0 nothing is highlighted, yet a zero-cost neighbour still accepts the move |
| UseGame.CompletePlayerTurn | Starcraft4x/src/hooks/useGame.js:116-170 | no contract of its own; specified by GameFlow.EndTurnReturnsToPlayer and NoClickDuringEnemyStep |
| GameFlow.Dispatch | Starcraft4x/src/hooks/useGame.js:73-109 | no contract of its own; specified through ClickCell by GameFlow.RejectedClickIsIdempotent, AcceptedClickMovesPlayer and OneClickSpends |
| GameFlow.ClickCell | Starcraft4x/src/components/HexMap.jsx:126-128 | no contract of its own; specified by GameFlow.RejectedClickIsIdempotent, AcceptedClickMovesPlayer, ClickIgnoredOutsidePlayerTurn and OneClickSpends |
| GameFlow.InitialStateIgnoresClicks | Starcraft4x/src/context/GameContext.jsx:28-37 | `InitialGameState` is loading with no units, owner "player", and ignores every click |
| GameFlow.RejectedClickIsIdempotent | Starcraft4x/src/hooks/useGame.js:63-104 | a refused click changes only the notice, sets the guard's text, and repeating it changes nothing more |
| GameFlow.AcceptedClickMovesPlayer | Starcraft4x/src/hooks/useGame.js:93-109 | an accepted click puts the player on the passable adjacent target with ap - cost, keeping hp, power and everything else |
| GameFlow.ClickIgnoredOutsidePlayerTurn | Starcraft4x/src/hooks/useGame.js:64-65 | outside the player's turn a click changes nothing |
| GameFlow.MoveCostBounds | Starcraft4x/src/hooks/useGame.js:93-95 | the charged cost is at least 0 (or 1) when the table's costs are |
| GameFlow.OneClickSpends | Starcraft4x/src/hooks/useGame.js:93-109 | one click keeps an integer AP, lowers it by the cost exactly when the move is accepted, and keeps the tables, the enemy and the turn owner |
| GameFlow.ClicksSpendAp | Starcraft4x/src/hooks/useGame.js:93-109 | after any run of clicks, ap = start AP - the sum of accepted costs, never negative; with positive costs at most that many clicks succeed |
| GameFlow.EndTurnReturnsToPlayer | Starcraft4x/src/hooks/useGame.js:116-170 | ending the player's turn passes through "enemy" and comes back to "player" with ap 3, the enemy placed by the step; outside the player's turn nothing happens |
| GameFlow.NoClickDuringEnemyStep | Starcraft4x/src/hooks/useGame.js:119 | between the two actions of a turn end, clicks are ignored |
| GameFlow.NewGameEstablishes | Starcraft4x/src/context/GameContext.jsx:65-81 | a new game starts within the AP budget, and on passable cells when (5, 5) and (2, 2) are |
| GameFlow.ApInBudgetPreserved | Starcraft4x/src/context/GameContext.jsx:104-139 | with non-negative costs every step keeps the player's AP an integer in [0, 3] |
| GameFlow.EnemyStepLandsSafely | Starcraft4x/src/hooks/useGame.js:139-168 | the enemy lands on its own cell or a passable one |
| GameFlow.GreedyOverWithoutPlayer | Starcraft4x/src/hooks/useGame.js:155-163 | with no integer player position no distance compares, and the enemy stays |
| GameFlow.UnitsOnPassableCellsPreserved | Starcraft4x/src/hooks/useGame.js:63-170 | from a state where both units exist, have integer coordinates and stand on passable cells, clicks, turn ends and new games keep that so; a new game needs (5, 5) and (2, 2) passable |
| GameFlow.EnemyStepKeepsEnemyOnPassableCell | Starcraft4x/src/hooks/useGame.js:131-168 | from a positioned enemy on a passable cell, the step sends a passable cell and ENEMY_DID_STEP puts the enemy on it |
| GameFlow.EndTurnWithoutEnemyCreatesOne | Starcraft4x/src/hooks/useGame.js:123-127 | ending a turn with no enemy creates an enemy at (0, 0) with no hp or power |
| Scenarios.NewGameIsFreshTurn | Starcraft4x/src/context/GameContext.jsx:65-81 | after START_NEW_GAME on loaded tables the player may move, stands on (5, 5) and has 3 AP |
| Scenarios.StepOntoPlain | Starcraft4x/src/hooks/useGame.js:63-110 | from (5, 5) with 3 AP, clicking a passable cost-1 cell at (6, 5) moves there with 2 AP and changes nothing else |
| Scenarios.ClickTwoStepsAway | Starcraft4x/src/hooks/useGame.js:81-91 | clicking (7, 5), even when passable, only sets "Move only to adjacent hex" |
| Scenarios.RidgeTooExpensive | Starcraft4x/src/hooks/useGame.js:93-104 | clicking a passable adjacent cost-5 cell with 3 AP only sets "Not enough AP" |
| Scenarios.EnemyTieGoesToFirstDirection | Starcraft4x/src/hooks/useGame.js:154-163 | enemy (2, 2) chasing (5, 5) with (3, 2) and (2, 3) passable: they tie at distance 5 and (3, 2), first in the table, is chosen |

## Left out

- Fetching the tables and reading or writing saved games: network and storage I/O. The tables and snapshots are inputs.
- The effects of `GameProvider`: promises, React effects and the alive flag. This is asynchrony and framework plumbing.
- The 180 ms timer of `completePlayerTurn`: the two actions it dispatches are applied one after the other.
- The display code: `axialToPixels`, the hex geometry getters, `hexagonPolygonPointsString` and `computeViewportForCells`. It uses floating point and is for drawing only.
- The React views.
- Non-integer numbers and `Infinity`: coordinates, AP and costs are integers, NaN or missing. A non-finite cost counts as missing, so the `Number.isFinite` default of `attemptMovePlayer` and the `?? 1` default of `getReachableNeighborCells` coincide here.
- `null` fields inside a saved snapshot or unit record: they count as absent. JavaScript arithmetic would treat them as 0.
- Values of the wrong kind: a string where a cell list is expected, a terrain entry that is not an object.
- Camera.ComputeVisibleCellsAround: the radius is an integer, not an arbitrary number. The centre is a position or nothing, so a player record without q and r (as `GameContext.EnemyDidStepWithoutPlayer` produces) is not a possible input; there camera.js:6-8 compares `NaN <= radius`, which is false, and returns `[]`.
- Number width: coordinates, AP and costs are unbounded integers, while JavaScript numbers are doubles. Integers beyond 2^53 are inexact in the program, and `${n}` prints exponent notation from 10^21 upward, so `Camera.NatToDecimal` and the key round trip hold for the printed form only below that bound.
