# hexgrid in Dafny

A model of the `hexgrid` Go package: a hexagonal lattice in cube
coordinates `(q, r, s)` with `q + r + s = 0`. The model covers these parts:

- coordinate arithmetic (`NewHex`, `Add`, `Sub`, `Scale`);
- the hex norm (`Length`) and metric (`Distance`);
- the six-entry direction table and `Neighbor`;
- rounding of fractional coordinates back to the lattice (`FractionalHex.Round`);
- the two area enumerations, `Range` and `HexagonalGrid`;
- line of sight (`HasLineOfSight`) and field of view (`FieldOfView`).

Everything is pure: every operation is a Dafny function over immutable
datatypes and sequences. The properties are stated as contracts and lemmas.

Modules, one per file:

- `HexCoords` (`hex.dfy`): the `Hex` datatype, the zero-sum predicate,
  arithmetic, `Length` and `Distance`, and the metric laws. `Length` is tied
  to an independent definition, the largest absolute coordinate. `Distance`
  is tied to a norm on the two axial coordinates.
- `HexDirections` (`directions.dfy`): the closed set of six directions, their
  offsets, and `Neighbor`. The neighbours of a hex are exactly the lattice
  hexes at distance one.
- `HexRounding` (`rounding.dfy`): `FractionalHex` over `real`. Go's `int()`
  conversion is modelled as truncation toward zero. Round half away from
  zero is built on it, and then comes the repair step that recomputes one axis.
- `HexGrid` (`grid.dfy`): `HexagonalGrid`, written as recursion over the rows
  of the double loop. Its count is `1 + 3R(R + 1)`. It holds exactly the
  hexes of length at most `R`, in strictly increasing `(q, r)` order.
- `HexRange` (`range.dfy`): `Range`, proved equal to the hexagonal grid
  translated to the centre. Its count, membership (distance at most the
  radius) and order follow from that.
- `HexVisibility` (`visibility.dfy`): `HasLineOfSight` and `FieldOfView`. The
  line tracer is a function parameter.

A `Hex` keeps all three coordinates, because Go's struct equality and `Round`
both see `S` directly. Laws that depend on `S` being derived from `Q` and
`R` therefore require `ZeroSum` of the relevant argument.

Unrecognised direction values are not modelled. In the code a miss in the
`Directions` map yields the zero offset, so `Neighbor` returns
`NewHex(h.Q, h.R)`, which equals `h` for every lattice hex (hex.go:138-139).
This model's `Direction` is a closed six-case datatype, so such an input
cannot be written.

## Model

| member | source | states |
|---|---|---|
| HexCoords.NewHexOnLattice | hex.go:61-64 | the constructor keeps `q` and `r` and yields a hex with `q + r + s = 0` |
| HexCoords.ZeroSumExtensional | hex.go:54-64 | two lattice hexes are equal exactly when their `q` and `r` agree, and every lattice hex is `NewHex` of its own `q`, `r` |
| HexCoords.ArithmeticOnLattice | hex.go:113-125 | `Add`, `Sub` and `Scale` always land on the lattice; on lattice inputs the derived `s` is the sum, difference or multiple of the inputs' `s` |
| HexCoords.Length | hex.go:128-130 | on the lattice, the halved sum of absolute coordinates equals the largest absolute coordinate |
| HexCoords.LengthExact | hex.go:128-130 | on the lattice the sum of absolute coordinates is even, so the halving is exact; only the origin has length 0 |
| HexCoords.LengthIsAxialNorm | hex.go:128-130 | the length of `NewHex(x, y)` is the largest of `abs(x)`, `abs(y)` and `abs(x + y)` |
| HexCoords.Distance | hex.go:133-135 | the distance is 0 exactly when the `q` and `r` axes agree, and equals the axial norm of the coordinate difference |
| HexCoords.AddCommutative | hex.go:113-115 | `Add(a, b) == Add(b, a)` |
| HexCoords.AddAssociative | hex.go:113-115 | `Add` is associative |
| HexCoords.AddOrigin | hex.go:113-115 | the origin is a two-sided identity of `Add` on the lattice |
| HexCoords.AddSubInverse | hex.go:113-120 | `Sub(Add(a, b), b) == a` and `Add(Sub(a, b), b) == a` for a lattice hex `a` |
| HexCoords.SubSelf | hex.go:118-120 | `Sub(a, a)` is the origin |
| HexCoords.ScaleIdentities | hex.go:122-125 | scaling a lattice hex by 1 leaves it unchanged, and scaling any hex by 0 gives the origin |
| HexCoords.LengthScale | hex.go:123-130 | scaling by `k` multiplies the length by `abs(k)` |
| HexCoords.DistanceSelf | hex.go:133-135 | every hex is at distance 0 from itself |
| HexCoords.DistanceZeroIff | hex.go:133-135 | two lattice hexes are at distance 0 exactly when they are equal |
| HexCoords.DistanceSymmetric | hex.go:133-135 | distance is symmetric |
| HexCoords.DistanceTriangle | hex.go:133-135 | distance obeys the triangle inequality |
| HexCoords.DistanceTranslate | hex.go:113-135 | adding the same hex to both arguments leaves the distance unchanged |
| HexCoords.DistanceToTranslate | hex.go:113-135 | the distance from `c` to `Add(c, a)` is the length of `a`'s axial part |
| HexCoords.DistanceFromOrigin | hex.go:128-135 | the distance between the origin and a lattice hex, either way round, is its length |
| HexCoords.ArithmeticExamples | hex_test.go:14-51 | `Add((1,-3),(3,-7)) = (4,-10)`, `Sub` of the same = `(-2,4)`, `Scale((1,-3),2) = (2,-6)`, `Scale((-2,3),2) = (-4,6)` |
| HexCoords.DistanceExamples | hex_test.go:126-130 | the five distances of the repository's table: 2, 2, 1, 3, 3 |
| HexDirections.AllDirectionsListed | hex.go:11-33 | the table has six entries, lists every direction once, and has no repeats |
| HexDirections.OffsetIsUnit | hex.go:26-33 | each table offset is a lattice hex of length 1 |
| HexDirections.OffsetsDistinct | hex.go:26-33 | two directions have the same offset exactly when they are the same direction |
| HexDirections.OppositeOffsetsCancel | hex.go:26-33 | the table pairs up into opposite offsets that sum to the origin |
| HexDirections.UnitHexIsOffset | hex.go:26-33 | every lattice hex of length 1 is in the table, so the table is the whole unit ring |
| HexDirections.NeighborAdjacent | hex.go:138-141 | a neighbour lies on the lattice at distance exactly 1 |
| HexDirections.NeighborIsTranslation | hex.go:138-141 | `Neighbor(h, d) == Add(h, Directions[d])` |
| HexDirections.NeighborsDistinct | hex.go:138-141 | different directions give different neighbours |
| HexDirections.AllNeighborsDistinct | hex.go:138-141 | stepping from any hex in each of the six table directions reaches six pairwise different hexes |
| HexDirections.NeighborsAreUnitRing | hex.go:138-141 | a lattice hex is at distance 1 from `h` exactly when it is a neighbour of `h` in some direction |
| HexDirections.NeighborOpposite | hex.go:138-141 | stepping in a direction and then the opposite one returns to the starting lattice hex |
| HexDirections.NeighborExamples | hex_test.go:83-88 | the six neighbours of `(0,-1)` from the repository's table |
| HexRounding.NewFractionalHex | hex.go:79-82 | the constructed point keeps the `q` and `r` it was given, and its derived third axis makes the coordinates sum to 0 |
| HexRounding.Trunc | hex.go:88-90 | float-to-int conversion rounds toward zero: the result lies within one unit of the input, on the zero side |
| HexRounding.RoundToInt | hex.go:86-91 | rounding moves a value by at most 1/2, and an exact half goes away from zero |
| HexRounding.Residual | hex.go:97-99 | each rounding residual lies in `[0, 1/2]` |
| HexRounding.Round | hex.go:85-110 | the result is on the lattice. At most one axis differs from independent rounding. A changed `q` had the strictly largest residual; a changed `r` had a residual at least `q`'s and above `s`'s; a changed `s` had a residual at least both others |
| HexRounding.RoundToIntOfInt | hex.go:86-91 | integers round to themselves |
| HexRounding.RoundLatticePoint | hex.go:85-110 | integer coordinates that sum to zero round to the same hex |
| HexRounding.RoundKeepsConsistentRounding | hex.go:93-108 | when the independently rounded axes already sum to 0, the repair step changes nothing |
| HexRounding.RoundIsNear | hex.go:85-110 | for a zero-sum input, every axis of the result is within 1 of the input |
| HexRounding.RoundNudgedLatticePoint | hex.go:157-158 | a lattice hex nudged by less than 1/4 along `q` and `r` (as `Line` nudges its endpoints by 1e-6) rounds back to itself |
| HexRounding.RoundExamples | hex.go:86-107 | `0.5` rounds to 1, `-0.5` to -1 and `2.5` to 3; the tie `(0.5, 0.5, -1)` recomputes `r`, giving `(1, 0, -1)` |
| HexGrid.GridRow | grid.go:11-13 | the inner loop emits `NewHex(q, r1 + i)` for each `i`, `r2 - r1 + 1` hexes in all |
| HexGrid.GridRowMembers | grid.go:11-13 | a row holds exactly the lattice hexes with its `q` and an `r` in `[r1, r2]` |
| HexGrid.GridRowsMembers | grid.go:8-14 | the rows from `q` on hold exactly the lattice hexes whose `q` is in range and whose `r` is within that row's bounds |
| HexGrid.RowBoundsAreNorm | grid.go:9-10 | the loop bounds on `q` and `r` say exactly that every absolute coordinate is at most the radius |
| HexGrid.HexagonalGridMembers | grid.go:6-16 | a hex is in the grid exactly when it lies on the lattice with length at most the radius (so the grid is empty for a negative radius) |
| HexGrid.GridRowsSorted | grid.go:8-14 | the rows from `q` on come out strictly increasing by `q`, then `r`, and all have `q` at least the starting row |
| HexGrid.HexagonalGridSorted | grid.go:6-16 | the grid is strictly increasing by `q`, then `r`, and has no duplicates |
| HexGrid.RowLength | grid.go:9-11 | row `q` has `2R + 1 - abs(q)` hexes |
| HexGrid.GridRowsCount | grid.go:8-14 | the rows from `q` on hold half of the closed-form `TwiceCount(R, q)` hexes |
| HexGrid.HexagonalGridCount | grid.go:6-16 | the grid has `1 + 3R(R + 1)` hexes for `R >= 0`, and none for a negative radius |
| HexGrid.HexagonalGridExample | grid_test.go:21 | the grid of radius 3 has `1 + 6 + 12 + 18` hexes |
| HexRange.RangeRow | hex.go:175-177 | the inner loop emits `Add(center, NewHex(dx, dy1 + i))` for each `i`, `dy2 - dy1 + 1` hexes in all |
| HexRange.RangeRowsTranslateGridRows | hex.go:174-178 | the rows of `Range` are the rows of the hexagonal grid shifted by the centre |
| HexRange.RangeIsTranslatedGrid | hex.go:170-182 | `Range(center, R)` is `HexagonalGrid(R)` with `center` added to every hex, in the same order; both are empty for a negative radius |
| HexRange.RangeCount | hex.go:170-182 | the range has `1 + 3R(R + 1)` hexes for `R >= 0` and none for a negative radius, whatever the centre |
| HexRange.TranslatedBallSound | hex.go:174-178 | shifting the hexes of length at most `R` by the centre yields only lattice hexes within distance `R` of it |
| HexRange.TranslatedBallComplete | hex.go:174-178 | shifting the hexes of length at most `R` by the centre yields every lattice hex within distance `R` of it |
| HexRange.RangeMembers | hex.go:170-182 | a hex is in the range exactly when it lies on the lattice within distance `R` of the centre |
| HexRange.RangeSorted | hex.go:174-178 | the range is strictly increasing by `q`, then `r`, and has no duplicates |
| HexRange.RangeAroundOrigin | hex.go:170-182 | the range around the origin equals `HexagonalGrid` of the same radius, element by element |
| HexRange.RangeExamples | hex_test.go:205-207 | ranges of radius 0, 1 and 2 have 1, 7 and 19 hexes, around `(1,-2)` as around any centre |
| HexVisibility.Contains | hex.go:186-193 | the early-exit scan answers true exactly when the hex occurs in the slice, compared on all three axes |
| HexVisibility.Unblocked | hex.go:195-201 | the walk along the line answers true exactly when no hex of the line is blocking |
| HexVisibility.HasLineOfSight | hex.go:185-202 | line of sight holds exactly when no hex of the traced line, endpoints included, is in `blocking` |
| HexVisibility.FieldOfView | hex.go:205-217 | the result is an order-preserving subsequence of the candidates. It keeps every copy of each candidate that passes the filter and no copy of any other, which fixes it completely |
| HexVisibility.FieldOfViewMembers | hex.go:208-214 | a hex is in the field of view exactly when it is a candidate that passes the filter |
| HexVisibility.FieldOfViewAllVisible | hex.go:205-217 | when every candidate passes the filter, the result is all the candidates, in order |
| HexVisibility.FieldOfViewNoBlockers | hex.go:211 | with no blocking hexes the field of view is all the candidates |
| HexVisibility.FieldOfViewAllClear | hex.go:205-217 | when every traced line is clear the field of view is all the candidates |
| HexVisibility.FieldOfViewKeepsAdjacent | hex.go:211 | a candidate at distance at most 1 from the source is always kept, whatever blocks |
| HexVisibility.FieldOfViewHidesBlocked | hex.go:209-213 | a candidate farther than 1 whose traced line passes through a blocking hex is dropped |
| HexVisibility.FieldOfViewMonotone | hex.go:205-217 | adding blocking hexes never adds a hex to the field of view |

## Left out

- `Line` (hex.go:144-167) is not modelled. It interpolates in 64-bit floating point with a 1e-6 nudge, and its paths depend on floating-point rounding. `HasLineOfSight` and `FieldOfView` take the tracer as a parameter of type `Tracer`, so their properties hold for any tracer. The `Line` tests (hex_test.go:164-166) and the concrete field-of-view test (hex_test.go:241-273), whose answer of 16 depends on the traced lines, are left out with it.
- HexRounding.Round: works over exact `real` rather than `float64`, so results near a tie that depend on float representation error are not modelled.
- The `float64` casts in `Length` (hex.go:129), `Range` (hex.go:175) and `HexagonalGrid` (grid.go:9-10) are modelled as exact integer `abs`, `min`, `max` and halving. They agree for every value that does not lose precision in a double.
- Go's 64-bit `int` overflow is not modelled: coordinates are unbounded integers.
- HexDirections.Neighbor: unrecognised direction strings, and the zero offset that a map miss yields, are not modelled; `Direction` is a closed datatype.
- `Hex.String` (hex.go:66-68), the benchmarks, and the test framework's assertions are presentation and test plumbing.
