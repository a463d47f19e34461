/**
 * The integer part of Starcraft4x/src/components/camera.js: the window of
 * cells shown around the player, and the set of "q,r" keys of the cells the
 * player can reach now.
 */
module Camera {
  import opened JsValues
  import opened Axial
  import opened HexMath
  import opened WorldModel
  import opened Sequences

  predicate IsVisible(cell: Cell, center: Coord, maxHexRadius: int)
  {
    AxialDistance(CoordOf(cell), center) <= maxHexRadius
  }

  /** `cells.filter(...)` with the camera's distance test. */
  function CellsWithin(cells: seq<Cell>, center: Coord, maxHexRadius: int): (kept: seq<Cell>)
    ensures forall c :: c in kept <==> c in cells && IsVisible(c, center, maxHexRadius)
    ensures forall c :: multiset(kept)[c] == if IsVisible(c, center, maxHexRadius) then multiset(cells)[c] else 0
    ensures IsSubsequence(kept, cells)
  {
    if cells == [] then []
    else
      var rest := CellsWithin(cells[1..], center, maxHexRadius);
      assert cells == [cells[0]] + cells[1..];
      if IsVisible(cells[0], center, maxHexRadius) then [cells[0]] + rest else rest
  }

  /**
   * The cells within `maxHexRadius` of the centre. `None` for the centre is a
   * missing player; `None` for the cells is a value that is not an array.
   */
  function ComputeVisibleCellsAround(centerAxial: Option<Coord>, allCells: Option<seq<Cell>>, maxHexRadius: int): (visible: seq<Cell>)
    ensures centerAxial.None? || allCells.None? ==> visible == []
    ensures centerAxial.Some? && allCells.Some? ==>
              && IsSubsequence(visible, allCells.value)
              && (forall c :: c in visible <==> c in allCells.value && AxialDistance(CoordOf(c), centerAxial.value) <= maxHexRadius)
              && forall c :: multiset(visible)[c] ==
                   if AxialDistance(CoordOf(c), centerAxial.value) <= maxHexRadius then multiset(allCells.value)[c] else 0
  {
    if centerAxial.None? || allCells.None? then [] else CellsWithin(allCells.value, centerAxial.value, maxHexRadius)
  }

  /** With radius 0 exactly the cells on the centre coordinate are kept. */
  lemma VisibleAtRadiusZero(center: Coord, cells: seq<Cell>, c: Cell)
    ensures c in ComputeVisibleCellsAround(Some(center), Some(cells), 0) <==> c in cells && c.q == center.q && c.r == center.r
  {
    AxialDistanceZeroIff(CoordOf(c), center);
    AxialDistanceNonNegative(CoordOf(c), center);
  }

  // ---------------------------------------------------------------------
  // The key `${q},${r}` of a position

  predicate IsDigit(c: char)
  {
    '0' <= c <= '9'
  }

  function DigitChar(d: int): char
    requires 0 <= d < 10
  {
    ('0' as int + d) as char
  }

  /**
   * The decimal numeral of a natural number, as `${n}` prints it below 10^21
   * (no leading zeros); from there on JavaScript switches to exponent notation.
   */
  function NatToDecimal(n: nat): (s: string)
    ensures |s| >= 1 && forall i :: 0 <= i < |s| ==> IsDigit(s[i])
    ensures (|s| > 1 ==> s[0] != '0') && (n < 10 <==> |s| == 1)
    decreases n
  {
    if n < 10 then [DigitChar(n)] else NatToDecimal(n / 10) + [DigitChar(n % 10)]
  }

  /** `${n}` for an integer: a minus sign before the numeral of its magnitude. */
  function IntToDecimal(n: int): string
  {
    if n < 0 then "-" + NatToDecimal(-n) else NatToDecimal(n)
  }

  /** The key the camera stores for a position. */
  function PositionKey(p: Coord): string
  {
    IntToDecimal(p.q) + "," + IntToDecimal(p.r)
  }

  /** Reads a numeral back (the inverse of NatToDecimal). */
  function ParseNat(s: string): int
  {
    if |s| == 0 then 0 else 10 * ParseNat(s[..|s| - 1]) + (s[|s| - 1] as int - '0' as int)
  }

  function ParseInt(s: string): int
  {
    if |s| > 0 && s[0] == '-' then -ParseNat(s[1..]) else ParseNat(s)
  }

  /** Index of the first comma, or |s| when there is none. */
  function FirstComma(s: string): (i: nat)
    ensures i <= |s|
  {
    if s == [] || s[0] == ',' then 0 else 1 + FirstComma(s[1..])
  }

  /** Reads a key back into a position (the inverse of PositionKey). */
  function ParseKey(key: string): Coord
  {
    var i := FirstComma(key);
    Coord(ParseInt(key[..i]), if i < |key| then ParseInt(key[i + 1..]) else 0)
  }

  lemma {:induction false} NatDecimalRoundTrip(n: nat)
    ensures ParseNat(NatToDecimal(n)) == n
  {
    var s := NatToDecimal(n);
    if n >= 10 {
      NatDecimalRoundTrip(n / 10);
      assert s[..|s| - 1] == NatToDecimal(n / 10);
    }
  }

  lemma IntDecimalRoundTrip(n: int)
    ensures ParseInt(IntToDecimal(n)) == n
    ensures forall i :: 0 <= i < |IntToDecimal(n)| ==> IntToDecimal(n)[i] != ','
  {
    if n < 0 {
      NatDecimalRoundTrip(-n);
      assert IntToDecimal(n)[1..] == NatToDecimal(-n);
    } else {
      NatDecimalRoundTrip(n);
    }
  }

  lemma {:induction false} FirstCommaAfter(a: string, b: string)
    requires forall i :: 0 <= i < |a| ==> a[i] != ','
    ensures FirstComma(a + "," + b) == |a|
  {
    if a != [] {
      assert (a + "," + b)[1..] == a[1..] + "," + b;
      FirstCommaAfter(a[1..], b);
    }
  }

  /** Decoding a key gives back the position it was built from. */
  lemma PositionKeyRoundTrip(p: Coord)
    ensures ParseKey(PositionKey(p)) == p
  {
    var a, b := IntToDecimal(p.q), IntToDecimal(p.r);
    IntDecimalRoundTrip(p.q);
    IntDecimalRoundTrip(p.r);
    FirstCommaAfter(a, b);
    var key := PositionKey(p);
    assert key[..|a|] == a;
    assert key[|a| + 1..] == b;
  }

  /** The key encoding is injective, so key membership is position membership. */
  lemma PositionKeyInjective(p1: Coord, p2: Coord)
    ensures PositionKey(p1) == PositionKey(p2) <==> p1 == p2
  {
    PositionKeyRoundTrip(p1);
    PositionKeyRoundTrip(p2);
  }

  ghost function PositionsOf(list: seq<Coord>): set<Coord>
  {
    set p | p in list
  }

  ghost function KeysOf(positions: set<Coord>): set<string>
  {
    set p | p in positions :: PositionKey(p)
  }

  /** Adding one position adds its key, and one more key exactly when the position is new. */
  lemma AddPositionKey(seen: set<Coord>, pos: Coord)
    requires |KeysOf(seen)| == |seen|
    ensures KeysOf(seen + {pos}) == KeysOf(seen) + {PositionKey(pos)}
    ensures |KeysOf(seen + {pos})| == |seen + {pos}|
  {
    var k := PositionKey(pos);
    forall x | x in KeysOf(seen + {pos})
      ensures x in KeysOf(seen) + {k}
    {
      var p :| p in seen + {pos} && PositionKey(p) == x;
      if p != pos {
        assert p in seen;
      }
    }
    assert KeysOf(seen + {pos}) == KeysOf(seen) + {k};
    if pos !in seen {
      if k in KeysOf(seen) {
        var p :| p in seen && PositionKey(p) == k;
        PositionKeyInjective(p, pos);
        assert false;
      }
      assert |KeysOf(seen) + {k}| == |KeysOf(seen)| + 1;
      assert |seen + {pos}| == |seen| + 1;
    } else {
      assert k in KeysOf(seen);
      assert seen + {pos} == seen;
    }
  }

  /** `new Set()` filled with the key of every position of the list. */
  method BuildReachableKeySet(reachableList: seq<Coord>) returns (keys: set<string>)
    ensures keys == set p | p in reachableList :: PositionKey(p)
    ensures forall p :: PositionKey(p) in keys <==> p in reachableList
    ensures |keys| == |set p | p in reachableList| <= |reachableList|
  {
    keys := {};
    ghost var seen: set<Coord> := {};
    for i := 0 to |reachableList|
      invariant seen == PositionsOf(reachableList[..i])
      invariant keys == KeysOf(seen)
      invariant |keys| == |seen| <= i
    {
      var pos := reachableList[i];
      AddPositionKey(seen, pos);
      PrefixPositionsStep(reachableList, i);
      keys := keys + {PositionKey(pos)};
      seen := seen + {pos};
    }
    assert reachableList[..|reachableList|] == reachableList;
    KeysMembership(seen);
  }

  lemma PrefixPositionsStep(list: seq<Coord>, i: nat)
    requires i < |list|
    ensures PositionsOf(list[..i + 1]) == PositionsOf(list[..i]) + {list[i]}
  {
    assert list[..i + 1] == list[..i] + [list[i]];
  }

  lemma KeysMembership(positions: set<Coord>)
    ensures forall p :: PositionKey(p) in KeysOf(positions) <==> p in positions
  {
    forall p
      ensures PositionKey(p) in KeysOf(positions) <==> p in positions
    {
      if PositionKey(p) in KeysOf(positions) {
        var p' :| p' in positions && PositionKey(p') == PositionKey(p);
        PositionKeyInjective(p, p');
      }
    }
  }
}
