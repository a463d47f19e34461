/**
 * The integer part of Starcraft4x/src/components/hexMath.js: its own copy of
 * the hex distance, used by the camera filter.
 */
module HexMath {
  import opened Axial

  /** Axial hex distance; deltaS is the third cube axis, so the deltas sum to zero. */
  function AxialDistance(from: Coord, to: Coord): int
  {
    var deltaQ := from.q - to.q;
    var deltaR := from.r - to.r;
    var deltaS := -deltaQ - deltaR;
    (Abs(deltaQ) + Abs(deltaR) + Abs(deltaS)) / 2
  }

  lemma AxialDistanceSymmetric(a: Coord, b: Coord)
    ensures AxialDistance(a, b) == AxialDistance(b, a)
  {
  }

  lemma AxialDistanceNonNegative(a: Coord, b: Coord)
    ensures AxialDistance(a, b) >= 0
  {
  }

  lemma AxialDistanceZeroIff(a: Coord, b: Coord)
    ensures AxialDistance(a, b) == 0 <==> a.q == b.q && a.r == b.r
  {
  }

  /** The copy agrees with the distance of axial.js on every input. */
  lemma AxialDistanceAgrees(a: Coord, b: Coord)
    ensures AxialDistance(a, b) == GetAxialDistance(a, b)
  {
  }

  /** The distance only depends on the difference of the two coordinates. */
  lemma AxialDistanceTranslationInvariant(a: Coord, b: Coord, t: Offset)
    ensures AxialDistance(Shift(a, t), Shift(b, t)) == AxialDistance(a, b)
    ensures AxialDistance(a, b) == AxialDistance(Coord(a.q - b.q, a.r - b.r), Origin)
  {
  }
}
