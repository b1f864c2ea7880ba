/**
 The hexagon-shaped grid of a given radius around the origin, built row by
 row: one row per `q` from `-radius` to `radius`, each row running over the
 `r` values that keep the third axis within the radius.
 */
module HexGrid {
  import opened HexCoords

  /** The order in which the grid emits hexes: by `q`, then by `r`. */
  predicate Before(a: Hex, b: Hex) {
    a.q < b.q || (a.q == b.q && a.r < b.r)
  }

  predicate StrictlySorted(s: seq<Hex>) {
    forall i, j :: 0 <= i < j < |s| ==> Before(s[i], s[j])
  }

  /** Sorting by a strict order leaves no room for duplicates. */
  predicate Distinct(s: seq<Hex>) {
    forall i, j :: 0 <= i < j < |s| ==> s[i] != s[j]
  }

  /** Two sorted runs, every element of the first before every element of
      the second, concatenate to a sorted run. */
  lemma {:induction false} ConcatSorted(a: seq<Hex>, b: seq<Hex>)
    requires StrictlySorted(a) && StrictlySorted(b)
    requires forall x, y :: x in a && y in b ==> Before(x, y)
    ensures StrictlySorted(a + b)
  {
    var c := a + b;
    forall i, j | 0 <= i < j < |c|
      ensures Before(c[i], c[j])
    {
      if j < |a| {
        assert c[i] == a[i] && c[j] == a[j];
      } else if i < |a| {
        assert c[i] == a[i] && c[j] == b[j - |a|];
        assert a[i] in a && b[j - |a|] in b;
      } else {
        assert c[i] == b[i - |a|] && c[j] == b[j - |a|];
      }
    }
  }

  /** First `r` of row `q`: keeps `r` and `s` within the radius. */
  function RowLow(radius: int, q: int): int {
    Max(-radius, -q - radius)
  }

  /** Last `r` of row `q`. */
  function RowHigh(radius: int, q: int): int {
    Min(radius, -q + radius)
  }

  /** The hexes `(q, r)` for `r` from `r` up to `last` inclusive. */
  function GridRow(q: int, r: int, last: int): (row: seq<Hex>)
    ensures |row| == if last < r then 0 else last - r + 1
    ensures forall i :: 0 <= i < |row| ==> row[i] == NewHex(q, r + i)
    decreases last - r + 1
  {
    if last < r then [] else [NewHex(q, r)] + GridRow(q, r + 1, last)
  }

  /** A row holds exactly the lattice hexes of its `q` whose `r` is in range. */
  lemma GridRowMembers(q: int, r: int, last: int, x: Hex)
    ensures x in GridRow(q, r, last) <==> ZeroSum(x) && x.q == q && r <= x.r <= last
  {
    var row := GridRow(q, r, last);
    if x in row {
      var i :| 0 <= i < |row| && row[i] == x;
      assert x == NewHex(q, r + i);
    }
    if ZeroSum(x) && x.q == q && r <= x.r <= last {
      var i := x.r - r;
      assert row[i] == NewHex(q, x.r);
    }
  }

  /** The rows for `q` from `q` up to `radius`, one after the other. */
  function GridRows(radius: int, q: int): seq<Hex>
    decreases radius - q + 1
  {
    if radius < q then []
    else GridRow(q, RowLow(radius, q), RowHigh(radius, q)) + GridRows(radius, q + 1)
  }

  /** Every hex within `radius` steps of the origin. Empty for a negative
      radius, as the outer loop then never runs. */
  function HexagonalGrid(radius: int): seq<Hex> {
    GridRows(radius, -radius)
  }

  lemma {:induction false} GridRowsMembers(radius: int, q: int, x: Hex)
    ensures x in GridRows(radius, q) <==>
      ZeroSum(x) && q <= x.q <= radius && RowLow(radius, x.q) <= x.r <= RowHigh(radius, x.q)
    decreases radius - q + 1
  {
    if q <= radius {
      GridRowMembers(q, RowLow(radius, q), RowHigh(radius, q), x);
      GridRowsMembers(radius, q + 1, x);
    }
  }

  /** The row bounds are exactly the condition that all three axes lie within
      the radius. */
  lemma RowBoundsAreNorm(radius: int, x: Hex)
    requires ZeroSum(x)
    ensures (-radius <= x.q <= radius && RowLow(radius, x.q) <= x.r <= RowHigh(radius, x.q))
        <==> MaxAbs(x) <= radius
  {
  }

  /** The grid holds exactly the lattice hexes at most `radius` from the
      origin. */
  lemma HexagonalGridMembers(radius: int, x: Hex)
    ensures x in HexagonalGrid(radius) <==> ZeroSum(x) && Length(x) <= radius
  {
    GridRowsMembers(radius, -radius, x);
    if ZeroSum(x) {
      RowBoundsAreNorm(radius, x);
    }
  }

  lemma {:induction false} GridRowsSorted(radius: int, q: int)
    ensures StrictlySorted(GridRows(radius, q))
    ensures forall h :: h in GridRows(radius, q) ==> q <= h.q
    decreases radius - q + 1
  {
    if q <= radius {
      var row := GridRow(q, RowLow(radius, q), RowHigh(radius, q));
      var rest := GridRows(radius, q + 1);
      GridRowsSorted(radius, q + 1);
      assert StrictlySorted(row) by {
        forall i, j | 0 <= i < j < |row|
          ensures Before(row[i], row[j])
        {
          var a, b := row[i], row[j];
          assert a.q == q && b.q == q && a.r < b.r;
        }
      }
      forall x | x in row
        ensures x.q == q
      {
        GridRowMembers(q, RowLow(radius, q), RowHigh(radius, q), x);
      }
      ConcatSorted(row, rest);
    }
  }

  /** The grid comes out ordered by `q`, then `r`, hence with no repeats. */
  lemma HexagonalGridSorted(radius: int)
    ensures StrictlySorted(HexagonalGrid(radius))
    ensures Distinct(HexagonalGrid(radius))
  {
    GridRowsSorted(radius, -radius);
  }

  /** Row `q` of a grid of radius `radius` has `2 * radius + 1 - |q|` hexes. */
  lemma RowLength(radius: int, q: int)
    requires -radius <= q <= radius
    ensures |GridRow(q, RowLow(radius, q), RowHigh(radius, q))| == 2 * radius + 1 - Abs(q)
  {
  }

  /** Twice the number of hexes in the rows from `q` to `radius`. */
  function TwiceCount(radius: int, q: int): int {
    if q >= 0 then (radius - q + 1) * (3 * radius + 2 - q)
    else (radius + 1) * (3 * radius + 2) + (-q) * (4 * radius + 2) - (-q) * (-q + 1)
  }

  /** Adding row `q` in front of the rows after it adds its length. */
  lemma {:induction false} TwiceCountStep(radius: int, q: int)
    requires -radius <= q <= radius
    ensures TwiceCount(radius, q) == 2 * (2 * radius + 1 - Abs(q)) + TwiceCount(radius, q + 1)
  {
    if q >= 0 {
      var a := radius - q;
      assert TwiceCount(radius, q) == (a + 1) * (a + 2 * radius + 2);
      assert TwiceCount(radius, q + 1) == a * (a + 2 * radius + 1);
      assert (a + 1) * (a + 2 * radius + 2) == a * (a + 2 * radius + 1) + 2 * a + 2 * radius + 2;
    } else {
      var m := -q;
      var base := (radius + 1) * (3 * radius + 2);
      assert TwiceCount(radius, q) == base + m * (4 * radius + 2) - m * (m + 1);
      assert TwiceCount(radius, q + 1) == base + (m - 1) * (4 * radius + 2) - (m - 1) * m;
      assert m * (4 * radius + 2) == (m - 1) * (4 * radius + 2) + 4 * radius + 2;
      assert m * (m + 1) == (m - 1) * m + 2 * m;
    }
  }

  lemma {:induction false} GridRowsCount(radius: int, q: int)
    requires 0 <= radius && -radius <= q <= radius + 1
    ensures 2 * |GridRows(radius, q)| == TwiceCount(radius, q)
    decreases radius - q + 1
  {
    if q <= radius {
      RowLength(radius, q);
      GridRowsCount(radius, q + 1);
      TwiceCountStep(radius, q);
    } else {
      assert TwiceCount(radius, q) == 0 * (2 * radius + 1);
    }
  }

  /** A grid of radius `R` has `1 + 3R(R + 1)` hexes: the centre and rings of
      6, 12, ... hexes. */
  lemma HexagonalGridCount(radius: int)
    ensures |HexagonalGrid(radius)| == if radius < 0 then 0 else 1 + 3 * radius * (radius + 1)
  {
    if radius >= 0 {
      GridRowsCount(radius, -radius);
      TwiceCountWhole(radius);
    }
  }

  lemma {:induction false} TwiceCountWhole(radius: int)
    requires radius >= 0
    ensures TwiceCount(radius, -radius) == 2 * (1 + 3 * radius * (radius + 1))
  {
    var sq := radius * radius;
    assert 3 * radius * (radius + 1) == 3 * sq + 3 * radius;
    if radius > 0 {
      assert (radius + 1) * (3 * radius + 2) == 3 * sq + 5 * radius + 2;
      assert radius * (4 * radius + 2) == 4 * sq + 2 * radius;
      assert radius * (radius + 1) == sq + radius;
    }
  }

  /** The grid of radius 3 has 1 + 6 + 12 + 18 hexes. */
  lemma HexagonalGridExample()
    ensures |HexagonalGrid(3)| == 1 + 6 + 12 + 18
  {
    HexagonalGridCount(3);
  }
}
