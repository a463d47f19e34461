/**
 * The two static tables the game loads at start-up: terrain definitions keyed
 * by id, and the list of world cells. They are inputs of the model; how they
 * are fetched is not part of it.
 */
module WorldModel {
  import opened JsValues
  import opened Axial

  /**
   * A terrain definition. `moveCost` is `None` when the record has no finite
   * move cost (the game then charges 1).
   */
  datatype Terrain = Terrain(moveCost: Option<int>, passable: bool, color: string)

  /** One entry of the world-cell list. */
  datatype Cell = Cell(q: int, r: int, terrainId: string)

  function CoordOf(cell: Cell): Coord
  {
    Coord(cell.q, cell.r)
  }

  /** No two cells of the list share a coordinate (the data is meant to satisfy this). */
  predicate CoordinatesUnique(cells: seq<Cell>)
  {
    forall i, j :: 0 <= i < j < |cells| ==> CoordOf(cells[i]) != CoordOf(cells[j])
  }

  /** Every move cost in the table is non-negative (the data is meant to satisfy this). */
  predicate CostsNonNegative(terrainById: map<string, Terrain>)
  {
    forall id :: id in terrainById && terrainById[id].moveCost.Some? ==> terrainById[id].moveCost.value >= 0
  }
}
