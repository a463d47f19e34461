/**
 * The gameplay rules of the hook in Starcraft4x/src/hooks/useGame.js: its own
 * copies of the hex helpers, cell and terrain lookup, move validation, the
 * enemy's one-step pursuit and the list of cells the player can reach now.
 *
 * Every operation reads the current game state, which the hook takes from the
 * store; here it is an explicit parameter.
 */
module UseGame {
  import opened JsValues
  import Axial
  import opened WorldModel
  import opened GameContext
  import opened Sequences

  type Coord = Axial.Coord
  type Offset = Axial.Offset

  // ---------------------------------------------------------------------
  // The hook's own copies of the hex helpers

  const NeighborOffsetsAxial: seq<Offset> :=
    [Axial.Offset(1, 0), Axial.Offset(1, -1), Axial.Offset(0, -1),
     Axial.Offset(-1, 0), Axial.Offset(-1, 1), Axial.Offset(0, 1)]

  function GetAxialDistance(from: Coord, to: Coord): int
  {
    var deltaQ := from.q - to.q;
    var deltaR := from.r - to.r;
    var deltaS := -deltaQ - deltaR;
    (Axial.Abs(deltaQ) + Axial.Abs(deltaR) + Axial.Abs(deltaS)) / 2
  }

  predicate IsAdjacentAxial(from: Coord, to: Coord)
  {
    exists i :: 0 <= i < |NeighborOffsetsAxial| &&
                from.q + NeighborOffsetsAxial[i].deltaQ == to.q && from.r + NeighborOffsetsAxial[i].deltaR == to.r
  }

  /** The local copies are the helpers of axial.js. */
  lemma LocalHelpersAgree(a: Coord, b: Coord)
    ensures NeighborOffsetsAxial == Axial.NeighborOffsetsAxial
    ensures GetAxialDistance(a, b) == Axial.GetAxialDistance(a, b)
    ensures IsAdjacentAxial(a, b) <==> Axial.IsAdjacentAxial(a, b)
  {
  }

  function Neighbor(c: Coord, i: nat): Coord
    requires i < |NeighborOffsetsAxial|
  {
    Axial.Shift(c, NeighborOffsetsAxial[i])
  }

  /** The six neighbours of a coordinate, in table order. */
  function NeighborsOf(c: Coord): (neighbors: seq<Coord>)
    ensures |neighbors| == 6 && forall i :: 0 <= i < 6 ==> neighbors[i] == Neighbor(c, i)
  {
    [Neighbor(c, 0), Neighbor(c, 1), Neighbor(c, 2), Neighbor(c, 3), Neighbor(c, 4), Neighbor(c, 5)]
  }

  /** Adjacent means: one of the six neighbours, in table order. */
  lemma AdjacentIsNeighbor(a: Coord, b: Coord)
    ensures IsAdjacentAxial(a, b) <==> exists i :: 0 <= i < 6 && Neighbor(a, i) == b
  {
    if IsAdjacentAxial(a, b) {
      var i :| 0 <= i < |NeighborOffsetsAxial| &&
               a.q + NeighborOffsetsAxial[i].deltaQ == b.q && a.r + NeighborOffsetsAxial[i].deltaR == b.r;
      assert Neighbor(a, i) == b;
    }
    if exists i :: 0 <= i < 6 && Neighbor(a, i) == b {
      var i :| 0 <= i < 6 && Neighbor(a, i) == b;
      assert a.q + NeighborOffsetsAxial[i].deltaQ == b.q && a.r + NeighborOffsetsAxial[i].deltaR == b.r;
    }
  }

  // ---------------------------------------------------------------------
  // Lookup in the world tables

  predicate CellAt(cell: Cell, columnIndex: int, rowIndex: int)
  {
    cell.q == columnIndex && cell.r == rowIndex
  }

  /** `worldCells.find(...) || null`: the first cell on the coordinate. */
  function GetCellByAxial(worldCells: seq<Cell>, columnIndex: int, rowIndex: int): (found: Option<Cell>)
    ensures found.None? <==> forall i :: 0 <= i < |worldCells| ==> !CellAt(worldCells[i], columnIndex, rowIndex)
    ensures found.Some? ==>
              exists k :: 0 <= k < |worldCells| && worldCells[k] == found.value && CellAt(found.value, columnIndex, rowIndex) &&
                          forall j :: 0 <= j < k ==> !CellAt(worldCells[j], columnIndex, rowIndex)
  {
    if worldCells == [] then None
    else if CellAt(worldCells[0], columnIndex, rowIndex) then Some(worldCells[0])
    else
      var found := GetCellByAxial(worldCells[1..], columnIndex, rowIndex);
      assert found.Some? ==> exists k :: 0 <= k < |worldCells| - 1 && worldCells[1..][k] == found.value && CellAt(found.value, columnIndex, rowIndex) &&
                                         forall j :: 0 <= j < k ==> !CellAt(worldCells[1..][j], columnIndex, rowIndex);
      assert found.Some? ==> exists k :: 1 <= k < |worldCells| && worldCells[k] == found.value && CellAt(found.value, columnIndex, rowIndex) &&
                                         forall j :: 1 <= j < k ==> !CellAt(worldCells[j], columnIndex, rowIndex);
      found
  }

  /** When coordinates are unique, the lookup finds the one cell on each coordinate. */
  lemma LookupWithUniqueCoordinates(worldCells: seq<Cell>, i: int)
    requires CoordinatesUnique(worldCells) && 0 <= i < |worldCells|
    ensures GetCellByAxial(worldCells, worldCells[i].q, worldCells[i].r) == Some(worldCells[i])
  {
    var c := worldCells[i];
    var found := GetCellByAxial(worldCells, c.q, c.r);
    var k :| 0 <= k < |worldCells| && worldCells[k] == found.value && CellAt(found.value, c.q, c.r) &&
             forall j :: 0 <= j < k ==> !CellAt(worldCells[j], c.q, c.r);
  }

  /** `worldCell ? terrainById[worldCell.terrainId] : null` */
  function GetTerrainByCell(terrainById: map<string, Terrain>, worldCell: Option<Cell>): (terrain: Option<Terrain>)
    ensures terrain.None? <==> worldCell.None? || worldCell.value.terrainId !in terrainById
    ensures terrain.Some? ==> terrain.value == terrainById[worldCell.value.terrainId]
  {
    if worldCell.Some? && worldCell.value.terrainId in terrainById then Some(terrainById[worldCell.value.terrainId]) else None
  }

  function TerrainAt(s: GameState, c: Coord): Option<Terrain>
  {
    GetTerrainByCell(s.terrainById, GetCellByAxial(s.worldCells, c.q, c.r))
  }

  /** A cell exists on the coordinate and its terrain is passable. */
  predicate IsPassableAt(s: GameState, c: Coord)
  {
    GetCellByAxial(s.worldCells, c.q, c.r).Some? && TerrainAt(s, c).Some? && TerrainAt(s, c).value.passable
  }

  /** The terrain's move cost, or 1 when it has none. */
  function MoveCostAt(s: GameState, c: Coord): int
  {
    var terrain := TerrainAt(s, c);
    if terrain.Some? && terrain.value.moveCost.Some? then terrain.value.moveCost.value else 1
  }

  // ---------------------------------------------------------------------
  // attemptMovePlayer

  datatype NoticeKind = ImpassableTerrain | AdjacentOnly | NotEnoughAp

  function NoticeText(kind: NoticeKind): string
  {
    match kind
    case ImpassableTerrain => "Impassable terrain"
    case AdjacentOnly => "Move only to adjacent hex"
    case NotEnoughAp => "Not enough AP"
  }

  /** What one call dispatches: nothing, a notice, or a MOVE_PLAYER action. */
  datatype MoveOutcome = NoAction | Notice(kind: NoticeKind) | Move(q: int, r: int, nextActionPoints: Number)

  /** The first guard: the player may act now. */
  predicate AcceptsMoves(s: GameState)
  {
    !s.isDataLoading && !Truthy(s.loadErrorText) && s.playerUnit.Some? && s.activeTurnOwner == PlayerOwner
  }

  /**
   * `isAdjacentAxial(playerUnit, target)`. A coordinate that is not an
   * integer makes `q + deltaQ` NaN, which equals nothing.
   */
  predicate PlayerAdjacentTo(player: Unit, target: Coord)
  {
    PositionOf(player).Some? && IsAdjacentAxial(PositionOf(player).value, target)
  }

  function AttemptMovePlayer(s: GameState, columnIndex: int, rowIndex: int): (outcome: MoveOutcome)
    ensures outcome == NoAction <==> !AcceptsMoves(s)
    ensures outcome == Notice(ImpassableTerrain) <==> AcceptsMoves(s) && !IsPassableAt(s, Axial.Coord(columnIndex, rowIndex))
    ensures outcome == Notice(AdjacentOnly) <==>
              AcceptsMoves(s) && IsPassableAt(s, Axial.Coord(columnIndex, rowIndex)) &&
              !PlayerAdjacentTo(s.playerUnit.value, Axial.Coord(columnIndex, rowIndex))
    ensures outcome == Notice(NotEnoughAp) <==>
              AcceptsMoves(s) && IsPassableAt(s, Axial.Coord(columnIndex, rowIndex)) &&
              PlayerAdjacentTo(s.playerUnit.value, Axial.Coord(columnIndex, rowIndex)) &&
              LessThan(Minus(s.playerUnit.value.ap, MoveCostAt(s, Axial.Coord(columnIndex, rowIndex))), 0)
    ensures outcome.Move? ==>
              && outcome.q == columnIndex && outcome.r == rowIndex
              && IsPassableAt(s, Axial.Coord(columnIndex, rowIndex))
              && Axial.IsAdjacentAxial(PositionOf(s.playerUnit.value).value, Axial.Coord(columnIndex, rowIndex))
              && outcome.nextActionPoints == Minus(s.playerUnit.value.ap, MoveCostAt(s, Axial.Coord(columnIndex, rowIndex)))
              && !LessThan(outcome.nextActionPoints, 0)
  {
    var target := Axial.Coord(columnIndex, rowIndex);
    if !AcceptsMoves(s) then NoAction
    else if !IsPassableAt(s, target) then Notice(ImpassableTerrain)
    else if !PlayerAdjacentTo(s.playerUnit.value, target) then Notice(AdjacentOnly)
    else
      var nextActionPoints := Minus(s.playerUnit.value.ap, MoveCostAt(s, target));
      if LessThan(nextActionPoints, 0) then Notice(NotEnoughAp)
      else Move(columnIndex, rowIndex, nextActionPoints)
  }

  /** The first failing guard wins: an impassable target is reported even when it is also too far. */
  lemma ImpassableReportedBeforeDistance(s: GameState, columnIndex: int, rowIndex: int)
    requires AcceptsMoves(s) && !IsPassableAt(s, Axial.Coord(columnIndex, rowIndex))
    requires !PlayerAdjacentTo(s.playerUnit.value, Axial.Coord(columnIndex, rowIndex))
    ensures AttemptMovePlayer(s, columnIndex, rowIndex) == Notice(ImpassableTerrain)
  {
  }

  /** With an integer AP the cost is charged exactly and never drives it below zero. */
  lemma MoveChargesCost(s: GameState, columnIndex: int, rowIndex: int, ap: int)
    requires s.playerUnit.Some? && s.playerUnit.value.ap == Some(Int(ap))
    requires AttemptMovePlayer(s, columnIndex, rowIndex).Move?
    ensures var cost := MoveCostAt(s, Axial.Coord(columnIndex, rowIndex));
      AttemptMovePlayer(s, columnIndex, rowIndex).nextActionPoints == Int(ap - cost) && 0 <= ap - cost
  {
  }

  /** A player record without an AP value is never refused for AP: it moves with NaN. */
  lemma MissingApMovesWithNaN(s: GameState, columnIndex: int, rowIndex: int)
    requires AcceptsMoves(s) && s.playerUnit.value.ap.None?
    requires IsPassableAt(s, Axial.Coord(columnIndex, rowIndex)) && PlayerAdjacentTo(s.playerUnit.value, Axial.Coord(columnIndex, rowIndex))
    ensures AttemptMovePlayer(s, columnIndex, rowIndex) == Move(columnIndex, rowIndex, NaN)
  {
  }

  // ---------------------------------------------------------------------
  // The enemy step (the body of the timer in completePlayerTurn)

  /** The enemy's six neighbours in table order, then its own cell (staying is allowed). */
  function EnemyCandidates(e: Coord): seq<Coord>
  {
    NeighborsOf(e) + [e]
  }

  /** `candidatePositions.filter(...)`: the candidates on existing passable cells, in order. */
  function PassableCandidates(s: GameState, candidates: seq<Coord>): (kept: seq<Coord>)
    ensures forall c :: c in kept <==> c in candidates && IsPassableAt(s, c)
    ensures |kept| <= |candidates| && IsSubsequence(kept, candidates)
    ensures kept == [] <==> forall c :: c in candidates ==> !IsPassableAt(s, c)
  {
    if candidates == [] then []
    else
      var rest := PassableCandidates(s, candidates[1..]);
      if IsPassableAt(s, candidates[0]) then [candidates[0]] + rest else rest
  }

  /** `getAxialDistance(position, playerUnit)`; `None` when the player has no integer position (NaN). */
  function DistanceToPlayer(c: Coord, player: Option<Coord>): Option<int>
  {
    if player.Some? then Some(GetAxialDistance(c, player.value)) else None
  }

  /** `d < best`, where NaN compares false. */
  predicate Improves(d: Option<int>, best: Option<int>)
  {
    d.Some? && best.Some? && d.value < best.value
  }

  /** The loop of the step over the passable candidates, as a left fold. */
  function GreedyFrom(candidates: seq<Coord>, player: Option<Coord>, best: Coord, bestDistance: Option<int>): Coord
  {
    if candidates == [] then best
    else
      var d := DistanceToPlayer(candidates[0], player);
      if Improves(d, bestDistance) then GreedyFrom(candidates[1..], player, candidates[0], d)
      else GreedyFrom(candidates[1..], player, best, bestDistance)
  }

  function CoordPayload(c: Coord): StepPayload
  {
    StepPayload(Some(Int(c.q)), Some(Int(c.r)))
  }

  /** The ENEMY_DID_STEP payload the step sends for state `s`. */
  function EnemyStepPayload(s: GameState): StepPayload
  {
    if s.enemyUnit.None? || s.playerUnit.None? then
      if s.enemyUnit.Some? then StepPayload(s.enemyUnit.value.q, s.enemyUnit.value.r) else StepPayload(Some(Int(0)), Some(Int(0)))
    else
      var enemy := s.enemyUnit.value;
      if PositionOf(enemy).None? then
        // the candidates have a NaN coordinate, so none of them has a cell
        StepPayload(enemy.q, enemy.r)
      else
        var e := PositionOf(enemy).value;
        var passable := PassableCandidates(s, EnemyCandidates(e));
        if passable == [] then StepPayload(enemy.q, enemy.r)
        else
          var player := PositionOf(s.playerUnit.value);
          CoordPayload(GreedyFrom(passable, player, e, DistanceToPlayer(e, player)))
  }

  method EnemyStep(s: GameState) returns (payload: StepPayload)
    ensures payload == EnemyStepPayload(s)
  {
    if s.enemyUnit.None? || s.playerUnit.None? {
      payload := if s.enemyUnit.Some? then StepPayload(s.enemyUnit.value.q, s.enemyUnit.value.r) else StepPayload(Some(Int(0)), Some(Int(0)));
      return;
    }
    var enemy := s.enemyUnit.value;
    if PositionOf(enemy).None? {
      payload := StepPayload(enemy.q, enemy.r);
      return;
    }
    var e := PositionOf(enemy).value;
    var candidatePassable := PassableCandidates(s, EnemyCandidates(e));
    if |candidatePassable| == 0 {
      payload := StepPayload(enemy.q, enemy.r);
      return;
    }
    var player := PositionOf(s.playerUnit.value);
    var bestAxialPosition := e;
    var bestDistanceToPlayer := DistanceToPlayer(e, player);
    for i := 0 to |candidatePassable|
      invariant GreedyFrom(candidatePassable[i..], player, bestAxialPosition, bestDistanceToPlayer) ==
                GreedyFrom(candidatePassable, player, e, DistanceToPlayer(e, player))
    {
      var axialPos := candidatePassable[i];
      var distanceToPlayer := DistanceToPlayer(axialPos, player);
      assert candidatePassable[i..][1..] == candidatePassable[i + 1..];
      if Improves(distanceToPlayer, bestDistanceToPlayer) {
        bestAxialPosition := axialPos;
        bestDistanceToPlayer := distanceToPlayer;
      }
    }
    payload := CoordPayload(bestAxialPosition);
  }

  /** The loop of the step with the filter folded in: impassable candidates are skipped. */
  function GreedyOver(s: GameState, candidates: seq<Coord>, player: Option<Coord>, best: Coord, bestDistance: Option<int>): Coord
  {
    if candidates == [] then best
    else
      var d := DistanceToPlayer(candidates[0], player);
      if IsPassableAt(s, candidates[0]) && Improves(d, bestDistance) then GreedyOver(s, candidates[1..], player, candidates[0], d)
      else GreedyOver(s, candidates[1..], player, best, bestDistance)
  }

  lemma {:induction false} FilterThenFold(s: GameState, candidates: seq<Coord>, player: Option<Coord>, best: Coord, bestDistance: Option<int>)
    ensures GreedyFrom(PassableCandidates(s, candidates), player, best, bestDistance) == GreedyOver(s, candidates, player, best, bestDistance)
  {
    if candidates != [] {
      var d := DistanceToPlayer(candidates[0], player);
      FilterThenFold(s, candidates[1..], player, best, bestDistance);
      FilterThenFold(s, candidates[1..], player, candidates[0], d);
    }
  }

  /** No passable candidate is closer to the player than `start`. */
  ghost predicate NoneImproves(s: GameState, candidates: seq<Coord>, player: Option<Coord>, start: Coord)
  {
    forall j :: 0 <= j < |candidates| && IsPassableAt(s, candidates[j]) ==>
      !Improves(DistanceToPlayer(candidates[j], player), DistanceToPlayer(start, player))
  }

  /**
   * Candidate `k` is passable, closer than `start`, no passable candidate is
   * closer than it, and every passable candidate before it is farther.
   */
  ghost predicate FirstBestAt(s: GameState, candidates: seq<Coord>, player: Option<Coord>, start: Coord, k: int)
    requires 0 <= k < |candidates|
  {
    var dk := DistanceToPlayer(candidates[k], player);
    && IsPassableAt(s, candidates[k])
    && Improves(dk, DistanceToPlayer(start, player))
    && (forall j :: 0 <= j < |candidates| && IsPassableAt(s, candidates[j]) ==> !Improves(DistanceToPlayer(candidates[j], player), dk))
    && (forall j :: 0 <= j < k && IsPassableAt(s, candidates[j]) ==> Improves(dk, DistanceToPlayer(candidates[j], player)))
  }

  ghost predicate IsFirstBest(s: GameState, candidates: seq<Coord>, player: Option<Coord>, start: Coord, chosen: Coord)
  {
    || (chosen == start && NoneImproves(s, candidates, player, start))
    || (exists k :: 0 <= k < |candidates| && chosen == candidates[k] && FirstBestAt(s, candidates, player, start, k))
  }

  /** The fold with strict `<` picks the first passable candidate at the smallest distance, if it beats `start`. */
  lemma {:induction false} GreedyOverIsFirstBest(s: GameState, candidates: seq<Coord>, player: Option<Coord>, start: Coord)
    ensures IsFirstBest(s, candidates, player, start, GreedyOver(s, candidates, player, start, DistanceToPlayer(start, player)))
  {
    if candidates != [] {
      var c0, rest := candidates[0], candidates[1..];
      var d0 := DistanceToPlayer(c0, player);
      if IsPassableAt(s, c0) && Improves(d0, DistanceToPlayer(start, player)) {
        GreedyOverIsFirstBest(s, rest, player, c0);
        PrependImproving(s, candidates, player, start, GreedyOver(s, rest, player, c0, d0));
      } else {
        GreedyOverIsFirstBest(s, rest, player, start);
        PrependOther(s, candidates, player, start, GreedyOver(s, rest, player, start, DistanceToPlayer(start, player)));
      }
    }
  }

  /** A first candidate that beats `start` becomes the new reference for the rest. */
  lemma PrependImproving(s: GameState, candidates: seq<Coord>, player: Option<Coord>, start: Coord, b: Coord)
    requires candidates != [] && IsPassableAt(s, candidates[0])
    requires Improves(DistanceToPlayer(candidates[0], player), DistanceToPlayer(start, player))
    requires IsFirstBest(s, candidates[1..], player, candidates[0], b)
    ensures IsFirstBest(s, candidates, player, start, b)
  {
    var c0, rest := candidates[0], candidates[1..];
    var d0 := DistanceToPlayer(c0, player);
    if b == c0 && NoneImproves(s, rest, player, c0) {
      forall j | 0 <= j < |candidates| && IsPassableAt(s, candidates[j])
        ensures !Improves(DistanceToPlayer(candidates[j], player), d0)
      {
        if j > 0 {
          assert candidates[j] == rest[j - 1];
        }
      }
      assert FirstBestAt(s, candidates, player, start, 0);
    } else {
      var k :| 0 <= k < |rest| && b == rest[k] && FirstBestAt(s, rest, player, c0, k);
      var dk := DistanceToPlayer(b, player);
      forall j | 0 <= j < |candidates| && IsPassableAt(s, candidates[j])
        ensures !Improves(DistanceToPlayer(candidates[j], player), dk)
      {
        if j > 0 {
          assert candidates[j] == rest[j - 1];
        }
      }
      forall j | 0 <= j < k + 1 && IsPassableAt(s, candidates[j])
        ensures Improves(dk, DistanceToPlayer(candidates[j], player))
      {
        if j > 0 {
          assert candidates[j] == rest[j - 1];
        }
      }
      assert FirstBestAt(s, candidates, player, start, k + 1);
    }
  }

  /** A first candidate that is impassable or no closer than `start` changes nothing. */
  lemma PrependOther(s: GameState, candidates: seq<Coord>, player: Option<Coord>, start: Coord, b: Coord)
    requires candidates != []
    requires !(IsPassableAt(s, candidates[0]) && Improves(DistanceToPlayer(candidates[0], player), DistanceToPlayer(start, player)))
    requires IsFirstBest(s, candidates[1..], player, start, b)
    ensures IsFirstBest(s, candidates, player, start, b)
  {
    var rest := candidates[1..];
    var ds := DistanceToPlayer(start, player);
    if b == start && NoneImproves(s, rest, player, start) {
      forall j | 0 <= j < |candidates| && IsPassableAt(s, candidates[j])
        ensures !Improves(DistanceToPlayer(candidates[j], player), ds)
      {
        if j > 0 {
          assert candidates[j] == rest[j - 1];
        }
      }
      assert NoneImproves(s, candidates, player, start);
    } else {
      var k :| 0 <= k < |rest| && b == rest[k] && FirstBestAt(s, rest, player, start, k);
      var dk := DistanceToPlayer(b, player);
      forall j | 0 <= j < |candidates| && IsPassableAt(s, candidates[j])
        ensures !Improves(DistanceToPlayer(candidates[j], player), dk)
      {
        if j > 0 {
          assert candidates[j] == rest[j - 1];
        }
      }
      forall j | 0 <= j < k + 1 && IsPassableAt(s, candidates[j])
        ensures Improves(dk, DistanceToPlayer(candidates[j], player))
      {
        if j > 0 {
          assert candidates[j] == rest[j - 1];
        }
      }
      assert FirstBestAt(s, candidates, player, start, k + 1);
    }
  }

  /**
   * One enemy step from `e` towards a player on `p`, stated without the loop.
   * The enemy stays, or moves to a passable neighbour that every passable
   * neighbour before it in table order is farther from the player than;
   * it moves only to get strictly closer; and no passable candidate is
   * closer to the player than where it ends.
   */
  ghost predicate IsPursuitStep(s: GameState, e: Coord, p: Coord, b: Coord)
  {
    && (|| b == e
        || exists k :: 0 <= k < 6 && b == Neighbor(e, k) && IsPassableAt(s, b) &&
                       forall j :: 0 <= j < k && IsPassableAt(s, Neighbor(e, j)) ==>
                                   GetAxialDistance(Neighbor(e, j), p) > GetAxialDistance(b, p))
    && GetAxialDistance(b, p) <= GetAxialDistance(e, p)
    && (b != e ==> GetAxialDistance(b, p) < GetAxialDistance(e, p))
    && forall c :: c in EnemyCandidates(e) && IsPassableAt(s, c) ==> GetAxialDistance(b, p) <= GetAxialDistance(c, p)
  }

  lemma FirstBestIsPursuit(s: GameState, e: Coord, p: Coord, b: Coord)
    requires IsFirstBest(s, EnemyCandidates(e), Some(p), e, b)
    ensures IsPursuitStep(s, e, p, b)
  {
    var cands := EnemyCandidates(e);
    forall c | c in cands && IsPassableAt(s, c)
      ensures GetAxialDistance(b, p) <= GetAxialDistance(c, p)
    {
      var j :| 0 <= j < |cands| && cands[j] == c;
    }
    if b != e || !NoneImproves(s, cands, Some(p), e) {
      var k :| 0 <= k < |cands| && b == cands[k] && FirstBestAt(s, cands, Some(p), e, k);
      assert k < 6;
      forall j | 0 <= j < k && IsPassableAt(s, Neighbor(e, j))
        ensures GetAxialDistance(Neighbor(e, j), p) > GetAxialDistance(b, p)
      {
        assert cands[j] == Neighbor(e, j);
      }
    }
  }

  /** What ENEMY_DID_STEP carries when both units stand on integer coordinates. */
  lemma EnemyStepPursues(s: GameState)
    requires s.enemyUnit.Some? && s.playerUnit.Some?
    requires PositionOf(s.enemyUnit.value).Some? && PositionOf(s.playerUnit.value).Some?
    ensures exists b :: EnemyStepPayload(s) == CoordPayload(b) &&
                        IsPursuitStep(s, PositionOf(s.enemyUnit.value).value, PositionOf(s.playerUnit.value).value, b)
  {
    var e, p := PositionOf(s.enemyUnit.value).value, PositionOf(s.playerUnit.value).value;
    var cands := EnemyCandidates(e);
    var passable := PassableCandidates(s, cands);
    var b := GreedyOver(s, cands, Some(p), e, DistanceToPlayer(e, Some(p)));
    FilterThenFold(s, cands, Some(p), e, DistanceToPlayer(e, Some(p)));
    GreedyOverIsFirstBest(s, cands, Some(p), e);
    FirstBestIsPursuit(s, e, p, b);
    if passable == [] {
      assert b == e;
      assert EnemyStepPayload(s) == CoordPayload(e);
    }
    assert EnemyStepPayload(s) == CoordPayload(b);
  }

  /** The step is determined: at most one position satisfies the pursuit rule. */
  lemma PursuitStepUnique(s: GameState, e: Coord, p: Coord, b1: Coord, b2: Coord)
    requires IsPursuitStep(s, e, p, b1) && IsPursuitStep(s, e, p, b2)
    ensures b1 == b2
  {
    var cands := EnemyCandidates(e);
    if b1 != e && b2 != e {
      var k1 :| 0 <= k1 < 6 && b1 == Neighbor(e, k1) && IsPassableAt(s, b1) &&
                forall j :: 0 <= j < k1 && IsPassableAt(s, Neighbor(e, j)) ==> GetAxialDistance(Neighbor(e, j), p) > GetAxialDistance(b1, p);
      var k2 :| 0 <= k2 < 6 && b2 == Neighbor(e, k2) && IsPassableAt(s, b2) &&
                forall j :: 0 <= j < k2 && IsPassableAt(s, Neighbor(e, j)) ==> GetAxialDistance(Neighbor(e, j), p) > GetAxialDistance(b2, p);
      assert cands[k1] == b1 && cands[k2] == b2;
      assert GetAxialDistance(b1, p) == GetAxialDistance(b2, p);
    }
  }

  /** Any pursuit step is the one the enemy takes. */
  lemma EnemyStepIsThePursuitStep(s: GameState, b: Coord)
    requires s.enemyUnit.Some? && s.playerUnit.Some?
    requires PositionOf(s.enemyUnit.value).Some? && PositionOf(s.playerUnit.value).Some?
    requires IsPursuitStep(s, PositionOf(s.enemyUnit.value).value, PositionOf(s.playerUnit.value).value, b)
    ensures EnemyStepPayload(s) == CoordPayload(b)
  {
    var e, p := PositionOf(s.enemyUnit.value).value, PositionOf(s.playerUnit.value).value;
    EnemyStepPursues(s);
    var taken :| EnemyStepPayload(s) == CoordPayload(taken) && IsPursuitStep(s, e, p, taken);
    PursuitStepUnique(s, e, p, taken, b);
  }

  /** Boxed in (no candidate cell is passable), the enemy stays where it is. */
  lemma EnemyStaysWhenBlocked(s: GameState)
    requires s.enemyUnit.Some? && PositionOf(s.enemyUnit.value).Some?
    requires forall c :: c in EnemyCandidates(PositionOf(s.enemyUnit.value).value) ==> !IsPassableAt(s, c)
    ensures EnemyStepPayload(s) == StepPayload(s.enemyUnit.value.q, s.enemyUnit.value.r)
  {
  }

  /** Without a player the step still returns the turn: the enemy, or `{q: 0, r: 0}` without one. */
  lemma EnemyStepWithoutUnits(s: GameState)
    requires s.enemyUnit.None? || s.playerUnit.None?
    ensures s.enemyUnit.Some? ==> EnemyStepPayload(s) == StepPayload(s.enemyUnit.value.q, s.enemyUnit.value.r)
    ensures s.enemyUnit.None? ==> EnemyStepPayload(s) == CoordPayload(Axial.Origin)
  {
  }

  // ---------------------------------------------------------------------
  // getReachableNeighborCells

  /** `playerUnit.ap - cost >= 0`; false when the AP is missing or NaN. */
  predicate CanAfford(player: Unit, cost: int)
  {
    var rest := Minus(player.ap, cost);
    rest.Int? && rest.value >= 0
  }

  /** The cell exists, is passable, and its cost fits the player's AP. */
  predicate CanStepOnto(s: GameState, player: Unit, c: Coord)
  {
    IsPassableAt(s, c) && CanAfford(player, MoveCostAt(s, c))
  }

  /** The positions of `positions` the player can step onto, in order. */
  function AffordableAmong(s: GameState, player: Unit, positions: seq<Coord>): (kept: seq<Coord>)
    ensures forall c :: c in kept <==> c in positions && CanStepOnto(s, player, c)
    ensures |kept| <= |positions| && IsSubsequence(kept, positions)
  {
    if positions == [] then []
    else
      var rest := AffordableAmong(s, player, positions[1..]);
      if CanStepOnto(s, player, positions[0]) then [positions[0]] + rest else rest
  }

  /**
   * The cells the map highlights. A player record whose coordinates are not
   * integers (NaN) has no neighbour with a cell, so nothing is highlighted.
   */
  function ReachableNeighborCells(s: GameState): seq<Coord>
  {
    if s.playerUnit.None? || AtMost(s.playerUnit.value.ap, 0) then []
    else
      match PositionOf(s.playerUnit.value)
      case None => []
      case Some(pos) => AffordableAmong(s, s.playerUnit.value, NeighborsOf(pos))
  }

  method GetReachableNeighborCells(s: GameState) returns (reachablePositions: seq<Coord>)
    ensures reachablePositions == ReachableNeighborCells(s)
  {
    if s.playerUnit.None? || AtMost(s.playerUnit.value.ap, 0) {
      return [];
    }
    var playerUnit := s.playerUnit.value;
    if PositionOf(playerUnit).None? {
      return [];
    }
    var pos := PositionOf(playerUnit).value;
    ghost var neighbors := NeighborsOf(pos);
    reachablePositions := [];
    for i := 0 to |NeighborOffsetsAxial|
      invariant reachablePositions + AffordableAmong(s, playerUnit, neighbors[i..]) == AffordableAmong(s, playerUnit, neighbors)
    {
      var neighborQ := pos.q + NeighborOffsetsAxial[i].deltaQ;
      var neighborR := pos.r + NeighborOffsetsAxial[i].deltaR;
      var neighborCell := GetCellByAxial(s.worldCells, neighborQ, neighborR);
      var neighborTerrain := GetTerrainByCell(s.terrainById, neighborCell);
      var neighborMoveCost := if neighborTerrain.Some? && neighborTerrain.value.moveCost.Some? then neighborTerrain.value.moveCost.value else 1;
      var isPassableAndAffordable :=
        neighborCell.Some? && neighborTerrain.Some? && neighborTerrain.value.passable && CanAfford(playerUnit, neighborMoveCost);
      assert neighbors[i] == Axial.Coord(neighborQ, neighborR);
      AffordableAmongStep(s, playerUnit, neighbors, i);
      assert isPassableAndAffordable == CanStepOnto(s, playerUnit, neighbors[i]);
      ghost var kept := if isPassableAndAffordable then [neighbors[i]] else [];
      ghost var rest := AffordableAmong(s, playerUnit, neighbors[i + 1..]);
      Sequences.ConcatAssociative(reachablePositions, kept, rest);
      if isPassableAndAffordable {
        reachablePositions := reachablePositions + [Axial.Coord(neighborQ, neighborR)];
      }
    }
    assert neighbors[|NeighborOffsetsAxial|..] == [];
  }

  /** One step of the filter: position `i` is kept or dropped ahead of the rest. */
  lemma AffordableAmongStep(s: GameState, player: Unit, positions: seq<Coord>, i: nat)
    requires i < |positions|
    ensures AffordableAmong(s, player, positions[i..]) ==
            (if CanStepOnto(s, player, positions[i]) then [positions[i]] else []) + AffordableAmong(s, player, positions[i + 1..])
  {
    assert positions[i..][1..] == positions[i + 1..];
  }

  /** At most six cells, in table order, each an adjacent passable cell whose cost fits the AP. */
  lemma ReachableNeighborProperties(s: GameState, c: Coord)
    ensures s.playerUnit.None? || AtMost(s.playerUnit.value.ap, 0) ==> ReachableNeighborCells(s) == []
    ensures |ReachableNeighborCells(s)| <= 6
    ensures c in ReachableNeighborCells(s) <==>
              && s.playerUnit.Some? && !AtMost(s.playerUnit.value.ap, 0)
              && PlayerAdjacentTo(s.playerUnit.value, c)
              && CanStepOnto(s, s.playerUnit.value, c)
    ensures s.playerUnit.Some? && PositionOf(s.playerUnit.value).Some? ==>
              IsSubsequence(ReachableNeighborCells(s), NeighborsOf(PositionOf(s.playerUnit.value).value))
  {
    if s.playerUnit.Some? && PositionOf(s.playerUnit.value).Some? {
      var pos := PositionOf(s.playerUnit.value).value;
      AdjacentIsNeighbor(pos, c);
      if c in NeighborsOf(pos) {
        var i :| 0 <= i < 6 && NeighborsOf(pos)[i] == c;
      }
    }
  }

  /**
   * For a player who may move and has a positive integer AP, a cell is
   * highlighted exactly when clicking it moves the player there.
   */
  lemma ReachableIffMoveAccepted(s: GameState, c: Coord, ap: int)
    requires AcceptsMoves(s) && s.playerUnit.value.ap == Some(Int(ap)) && ap > 0
    ensures c in ReachableNeighborCells(s) <==> AttemptMovePlayer(s, c.q, c.r).Move?
  {
    ReachableNeighborProperties(s, c);
    assert Axial.Coord(c.q, c.r) == c;
  }

  /** An AP of 0 highlights nothing, yet a free neighbouring cell still accepts the move. */
  lemma ZeroApFreeStepNotHighlighted(s: GameState, c: Coord)
    requires AcceptsMoves(s) && s.playerUnit.value.ap == Some(Int(0))
    requires IsPassableAt(s, c) && PlayerAdjacentTo(s.playerUnit.value, c) && MoveCostAt(s, c) == 0
    ensures ReachableNeighborCells(s) == []
    ensures AttemptMovePlayer(s, c.q, c.r) == Move(c.q, c.r, Int(0))
  {
    assert Axial.Coord(c.q, c.r) == c;
  }

  // ---------------------------------------------------------------------
  // completePlayerTurn

  /**
   * The actions `completePlayerTurn` dispatches, in order: none outside the
   * player's turn, else END_PLAYER_TURN and then the enemy step computed
   * from the state the turn ended in.
   */
  function CompletePlayerTurn(s: GameState): seq<Action>
  {
    if s.activeTurnOwner != PlayerOwner then [] else [EndPlayerTurn, EnemyDidStep(EnemyStepPayload(s))]
  }
}
