/**
 The hexes within a given number of steps of a centre. The enumeration walks
 the same rows as the hexagonal grid, offset by the centre, which is how its
 count, membership and order are derived here.
 */
module HexRange {
  import opened HexCoords
  import opened HexGrid

  /** Every hex of `s` shifted by `c`, in the same order. */
  function Translate(c: Hex, s: seq<Hex>): (t: seq<Hex>)
    ensures |t| == |s|
    ensures forall i :: 0 <= i < |s| ==> t[i] == Add(c, s[i])
  {
    if s == [] then [] else [Add(c, s[0])] + Translate(c, s[1..])
  }

  lemma TranslateConcat(c: Hex, a: seq<Hex>, b: seq<Hex>)
    ensures Translate(c, a + b) == Translate(c, a) + Translate(c, b)
  {
    var l, r := Translate(c, a + b), Translate(c, a) + Translate(c, b);
    assert |l| == |r|;
    forall i | 0 <= i < |l|
      ensures l[i] == r[i]
    {
      if i < |a| {
        assert (a + b)[i] == a[i];
      } else {
        assert (a + b)[i] == b[i - |a|];
      }
    }
  }

  /** Translation keeps the `q`-then-`r` order. */
  lemma TranslateSorted(c: Hex, s: seq<Hex>)
    requires StrictlySorted(s)
    ensures StrictlySorted(Translate(c, s))
  {
    var t := Translate(c, s);
    forall i, j | 0 <= i < j < |t|
      ensures Before(t[i], t[j])
    {
      assert Before(s[i], s[j]);
      assert t[i].q == c.q + s[i].q && t[i].r == c.r + s[i].r;
      assert t[j].q == c.q + s[j].q && t[j].r == c.r + s[j].r;
    }
  }

  /** The offsets `(dx, dy)` for `dy` from `dy` up to `last`, added to the
      centre. */
  function RangeRow(center: Hex, dx: int, dy: int, last: int): (row: seq<Hex>)
    ensures |row| == if last < dy then 0 else last - dy + 1
    ensures forall i :: 0 <= i < |row| ==> row[i] == Add(center, NewHex(dx, dy + i))
    decreases last - dy + 1
  {
    if last < dy then [] else [Add(center, NewHex(dx, dy))] + RangeRow(center, dx, dy + 1, last)
  }

  function RangeRows(center: Hex, radius: int, dx: int): seq<Hex>
    decreases radius - dx + 1
  {
    if radius < dx then []
    else RangeRow(center, dx, RowLow(radius, dx), RowHigh(radius, dx)) + RangeRows(center, radius, dx + 1)
  }

  /** The hexes at most `radius` steps from `center`; empty for a negative
      radius. */
  function Range(center: Hex, radius: int): seq<Hex> {
    if radius >= 0 then RangeRows(center, radius, -radius) else []
  }

  lemma {:induction false} RangeRowsTranslateGridRows(center: Hex, radius: int, dx: int)
    ensures RangeRows(center, radius, dx) == Translate(center, GridRows(radius, dx))
    decreases radius - dx + 1
  {
    if dx <= radius {
      var lo, hi := RowLow(radius, dx), RowHigh(radius, dx);
      var row, gridRow := RangeRow(center, dx, lo, hi), GridRow(dx, lo, hi);
      assert row == Translate(center, gridRow) by {
        var t := Translate(center, gridRow);
        assert |row| == |t|;
        forall i | 0 <= i < |row|
          ensures row[i] == t[i]
        {
          assert gridRow[i] == NewHex(dx, lo + i);
        }
      }
      RangeRowsTranslateGridRows(center, radius, dx + 1);
      TranslateConcat(center, gridRow, GridRows(radius, dx + 1));
    }
  }

  /** The range is the hexagonal grid of the same radius, moved to the
      centre. */
  lemma RangeIsTranslatedGrid(center: Hex, radius: int)
    ensures Range(center, radius) == Translate(center, HexagonalGrid(radius))
  {
    if radius >= 0 {
      RangeRowsTranslateGridRows(center, radius, -radius);
    }
  }

  /** A range of radius `R` has `1 + 3R(R + 1)` hexes, whatever the centre. */
  lemma RangeCount(center: Hex, radius: int)
    ensures |Range(center, radius)| == if radius < 0 then 0 else 1 + 3 * radius * (radius + 1)
  {
    RangeIsTranslatedGrid(center, radius);
    HexagonalGridCount(radius);
  }

  /** The hexes a lattice ball of radius `radius` around the origin holds. */
  ghost predicate IsBall(s: seq<Hex>, radius: int) {
    forall g :: g in s <==> ZeroSum(g) && Length(g) <= radius
  }

  /** Shifting a ball by `center` only yields lattice hexes within the radius
      of the centre. */
  lemma TranslatedBallSound(center: Hex, radius: int, s: seq<Hex>, x: Hex)
    requires IsBall(s, radius) && x in Translate(center, s)
    ensures ZeroSum(x) && Distance(center, x) <= radius
  {
    var i :| 0 <= i < |s| && Translate(center, s)[i] == x;
    var g := s[i];
    assert ZeroSum(g) && Length(g) <= radius;
    assert x == Add(center, g);
    ArithmeticOnLattice(center, g, 0);
    DistanceToTranslate(center, g);
    ZeroSumExtensional(g, g);
  }

  /** Shifting a ball by `center` yields every lattice hex within the radius
      of the centre. */
  lemma TranslatedBallComplete(center: Hex, radius: int, s: seq<Hex>, x: Hex)
    requires IsBall(s, radius) && ZeroSum(x) && Distance(center, x) <= radius
    ensures x in Translate(center, s)
  {
    var g := Sub(x, center);
    assert g in s by {
      ArithmeticOnLattice(x, center, 0);
      OffsetLength(center, x);
    }
    ShiftByOffset(center, x);
    TranslateMember(center, s, g);
  }

  /** Shifting a sequence shifts each of its members. */
  lemma TranslateMember(c: Hex, s: seq<Hex>, g: Hex)
    requires g in s
    ensures Add(c, g) in Translate(c, s)
  {
    var i :| 0 <= i < |s| && s[i] == g;
    assert Translate(c, s)[i] == Add(c, g);
  }

  /** The offset of a hex from the centre is as long as their distance. */
  lemma OffsetLength(center: Hex, x: Hex)
    ensures Length(Sub(x, center)) == Distance(center, x)
  {
    DistanceSymmetric(x, center);
  }

  /** A lattice hex is the centre shifted by its offset from the centre. */
  lemma ShiftByOffset(center: Hex, x: Hex)
    requires ZeroSum(x)
    ensures Add(center, Sub(x, center)) == x
  {
    AddSubInverse(x, center);
    AddCommutative(Sub(x, center), center);
  }

  /** A hex is in the range exactly when it lies on the lattice within
      `radius` steps of the centre. */
  lemma RangeMembers(center: Hex, radius: int, x: Hex)
    ensures x in Range(center, radius) <==> ZeroSum(x) && Distance(center, x) <= radius
  {
    var grid := HexagonalGrid(radius);
    forall g
      ensures g in grid <==> ZeroSum(g) && Length(g) <= radius
    {
      HexagonalGridMembers(radius, g);
    }
    RangeIsTranslatedGrid(center, radius);
    if x in Range(center, radius) {
      TranslatedBallSound(center, radius, grid, x);
    }
    if ZeroSum(x) && Distance(center, x) <= radius {
      TranslatedBallComplete(center, radius, grid, x);
    }
  }

  /** The range comes out ordered by `q`, then `r`, so it has no repeats. */
  lemma RangeSorted(center: Hex, radius: int)
    ensures StrictlySorted(Range(center, radius))
    ensures Distinct(Range(center, radius))
  {
    RangeIsTranslatedGrid(center, radius);
    HexagonalGridSorted(radius);
    TranslateSorted(center, HexagonalGrid(radius));
  }

  /** Around the origin the range is the hexagonal grid itself. */
  lemma RangeAroundOrigin(radius: int)
    ensures Range(Origin, radius) == HexagonalGrid(radius)
  {
    var grid := HexagonalGrid(radius);
    RangeIsTranslatedGrid(Origin, radius);
    forall i | 0 <= i < |grid|
      ensures Add(Origin, grid[i]) == grid[i]
    {
      HexagonalGridMembers(radius, grid[i]);
      AddOrigin(grid[i]);
    }
  }

  /** Ranges of radius 0, 1 and 2 hold 1, 7 and 19 hexes around any centre. */
  lemma RangeExamples(center: Hex)
    ensures |Range(center, 0)| == 1
    ensures |Range(center, 1)| == 7
    ensures |Range(center, 2)| == 19
  {
    RangeCount(center, 0);
    RangeCount(center, 1);
    RangeCount(center, 2);
  }
}
