/**
 * Pointy-top axial hex geometry: the six neighbour directions, the cube-metric
 * distance and adjacency (Starcraft4x/src/components/axial.js).
 */
module Axial {

  /** An axial coordinate; the third cube axis is s = -q - r. */
  datatype Coord = Coord(q: int, r: int)

  /** One entry of the neighbour table. */
  datatype Offset = Offset(deltaQ: int, deltaR: int)

  /** The six neighbour directions, in the fixed order the game enumerates them. */
  const NeighborOffsetsAxial: seq<Offset> :=
    [Offset(1, 0), Offset(1, -1), Offset(0, -1), Offset(-1, 0), Offset(-1, 1), Offset(0, 1)]

  const Origin := Coord(0, 0)

  function Shift(c: Coord, o: Offset): Coord
  {
    Coord(c.q + o.deltaQ, c.r + o.deltaR)
  }

  function Abs(x: int): nat
  {
    if x < 0 then -x else x
  }

  /** |dq| + |dr| + |ds| for the difference of two coordinates. */
  function CubeSum(from: Coord, to: Coord): nat
  {
    var diffQ := from.q - to.q;
    var diffR := from.r - to.r;
    var diffS := -diffQ - diffR;
    Abs(diffQ) + Abs(diffR) + Abs(diffS)
  }

  /**
   * Hex distance. The source divides by 2 in floating point; CubeSumIsEven
   * shows that the integer quotient used here is the exact value.
   */
  function GetAxialDistance(from: Coord, to: Coord): int
  {
    var diffQ := from.q - to.q;
    var diffR := from.r - to.r;
    var diffS := -diffQ - diffR;
    (Abs(diffQ) + Abs(diffR) + Abs(diffS)) / 2
  }

  /** `offsets.some(...)`: some entry of the table leads from `from` to `to`. */
  predicate SomeOffsetReaches(offsets: seq<Offset>, from: Coord, to: Coord)
  {
    exists i :: 0 <= i < |offsets| && from.q + offsets[i].deltaQ == to.q && from.r + offsets[i].deltaR == to.r
  }

  predicate IsAdjacentAxial(from: Coord, to: Coord)
  {
    SomeOffsetReaches(NeighborOffsetsAxial, from, to)
  }

  /** The table has six pairwise distinct entries, each one step from the origin. */
  lemma OffsetTableShape()
    ensures |NeighborOffsetsAxial| == 6
    ensures forall i, j :: 0 <= i < j < 6 ==> NeighborOffsetsAxial[i] != NeighborOffsetsAxial[j]
    ensures forall i :: 0 <= i < 6 ==> GetAxialDistance(Origin, Shift(Origin, NeighborOffsetsAxial[i])) == 1
  {
  }

  /** The table is closed under negation: every direction has its opposite in it. */
  lemma OffsetsClosedUnderNegation(i: int)
    requires 0 <= i < |NeighborOffsetsAxial|
    ensures exists j :: 0 <= j < |NeighborOffsetsAxial| &&
                        NeighborOffsetsAxial[j] == Offset(-NeighborOffsetsAxial[i].deltaQ, -NeighborOffsetsAxial[i].deltaR)
  {
    var j := (i + 3) % 6;
    assert NeighborOffsetsAxial[j] == Offset(-NeighborOffsetsAxial[i].deltaQ, -NeighborOffsetsAxial[i].deltaR);
  }

  lemma AdjacencySymmetric(a: Coord, b: Coord)
    ensures IsAdjacentAxial(a, b) <==> IsAdjacentAxial(b, a)
  {
    if IsAdjacentAxial(a, b) {
      var i :| 0 <= i < 6 && a.q + NeighborOffsetsAxial[i].deltaQ == b.q && a.r + NeighborOffsetsAxial[i].deltaR == b.r;
      OffsetsClosedUnderNegation(i);
    }
    if IsAdjacentAxial(b, a) {
      var i :| 0 <= i < 6 && b.q + NeighborOffsetsAxial[i].deltaQ == a.q && b.r + NeighborOffsetsAxial[i].deltaR == a.r;
      OffsetsClosedUnderNegation(i);
    }
  }

  lemma DistanceSymmetric(a: Coord, b: Coord)
    ensures GetAxialDistance(a, b) == GetAxialDistance(b, a)
  {
  }

  lemma DistanceNonNegative(a: Coord, b: Coord)
    ensures GetAxialDistance(a, b) >= 0
  {
  }

  /** The cube sum is even, so halving it is exact and the distance is half of it. */
  lemma CubeSumIsEven(a: Coord, b: Coord)
    ensures CubeSum(a, b) % 2 == 0
    ensures 2 * GetAxialDistance(a, b) == CubeSum(a, b)
  {
  }

  lemma DistanceZeroIff(a: Coord, b: Coord)
    ensures GetAxialDistance(a, b) == 0 <==> a == b
  {
  }

  /** Adjacency by table membership and "distance one" are the same relation. */
  lemma AdjacentIffDistanceOne(a: Coord, b: Coord)
    ensures IsAdjacentAxial(a, b) <==> GetAxialDistance(a, b) == 1
  {
    var dq, dr := b.q - a.q, b.r - a.r;
    if GetAxialDistance(a, b) == 1 {
      CubeSumIsEven(a, b);
      var k :=
        if dq == 1 && dr == 0 then 0
        else if dq == 1 && dr == -1 then 1
        else if dq == 0 && dr == -1 then 2
        else if dq == -1 && dr == 0 then 3
        else if dq == -1 && dr == 1 then 4
        else 5;
      assert a.q + NeighborOffsetsAxial[k].deltaQ == b.q && a.r + NeighborOffsetsAxial[k].deltaR == b.r;
    }
  }

  lemma TriangleInequality(a: Coord, b: Coord, c: Coord)
    ensures GetAxialDistance(a, c) <= GetAxialDistance(a, b) + GetAxialDistance(b, c)
  {
    AbsSubadditive(a.q - b.q, b.q - c.q);
    AbsSubadditive(a.r - b.r, b.r - c.r);
    AbsSubadditive(-(a.q - b.q) - (a.r - b.r), -(b.q - c.q) - (b.r - c.r));
    assert CubeSum(a, c) <= CubeSum(a, b) + CubeSum(b, c);
    CubeSumIsEven(a, b);
    CubeSumIsEven(b, c);
    CubeSumIsEven(a, c);
  }

  lemma AbsSubadditive(x: int, y: int)
    ensures Abs(x + y) <= Abs(x) + Abs(y)
  {
  }
}
