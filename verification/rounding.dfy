/**
 Fractional cube coordinates and their rounding back to the lattice.
 Coordinates are exact reals here, an idealisation of the 64-bit floating
 point values the implementation uses.
 */
module HexRounding {
  import opened HexCoords

  /** A point of the continuous plane in cube coordinates. */
  datatype FractionalHex = FractionalHex(q: real, r: real, s: real)

  /** Builds a fractional hex from two axes, deriving the third. */
  function NewFractionalHex(q: real, r: real): (f: FractionalHex)
    ensures f.q == q && f.r == r
    ensures f.q + f.r + f.s == 0.0
  {
    FractionalHex(q, r, -q - r)
  }

  /** The fractional hex sitting exactly on a lattice hex. */
  function FromHex(h: Hex): FractionalHex {
    FractionalHex(h.q as real, h.r as real, h.s as real)
  }

  /** Conversion of a real to an integer, discarding the fraction: rounds
      toward zero. */
  function Trunc(x: real): (n: int)
    ensures 0.0 <= x ==> n as real <= x < n as real + 1.0
    ensures x < 0.0 ==> n as real - 1.0 < x <= n as real
  {
    if x < 0.0 then -((-x).Floor) else x.Floor
  }

  /** Rounds to the nearest integer, halves away from zero. */
  function RoundToInt(a: real): (n: int)
    ensures 0.0 <= a ==> a - 0.5 < n as real <= a + 0.5
    ensures a < 0.0 ==> a - 0.5 <= n as real < a + 0.5
  {
    if a < 0.0 then Trunc(a - 0.5) else Trunc(a + 0.5)
  }

  function AbsReal(x: real): real {
    if x < 0.0 then -x else x
  }

  /** How far rounding moves one coordinate. */
  function Residual(v: real): (d: real)
    ensures 0.0 <= d <= 0.5
  {
    AbsReal(RoundToInt(v) as real - v)
  }

  /** Rounds each axis independently, then recomputes the axis that moved the
      most from the other two, so the result lies on the lattice. Ties between
      residuals are settled in the order q, r, s: `q` is recomputed only when
      its residual is strictly the largest, `r` when it strictly exceeds the
      residual of `s`, and `s` otherwise. */
  function Round(h: FractionalHex): (x: Hex)
    ensures x.q + x.r + x.s == 0
    // at most one axis departs from its independently rounded value ...
    ensures (x.q == RoundToInt(h.q) && x.r == RoundToInt(h.r))
         || (x.q == RoundToInt(h.q) && x.s == RoundToInt(h.s))
         || (x.r == RoundToInt(h.r) && x.s == RoundToInt(h.s))
    // ... and it is an axis whose residual is the largest, ties broken q, r, s
    ensures x.q != RoundToInt(h.q) ==> Residual(h.q) > Residual(h.r) && Residual(h.q) > Residual(h.s)
    ensures x.r != RoundToInt(h.r) ==> Residual(h.r) >= Residual(h.q) && Residual(h.r) > Residual(h.s)
    ensures x.s != RoundToInt(h.s) ==> Residual(h.s) >= Residual(h.q) && Residual(h.s) >= Residual(h.r)
  {
    var q, r, s := RoundToInt(h.q), RoundToInt(h.r), RoundToInt(h.s);
    var qDiff, rDiff, sDiff := Residual(h.q), Residual(h.r), Residual(h.s);
    if qDiff > rDiff && qDiff > sDiff then
      Hex(-r - s, r, s)
    else if rDiff > sDiff then
      Hex(q, -q - s, s)
    else
      Hex(q, r, -q - r)
  }

  /** Integers round to themselves. */
  lemma RoundToIntOfInt(k: int)
    ensures RoundToInt(k as real) == k
  {
  }

  /** A fractional hex already on the lattice rounds to that hex. */
  lemma RoundLatticePoint(h: Hex)
    requires ZeroSum(h)
    ensures Round(FromHex(h)) == h
  {
    RoundToIntOfInt(h.q);
    RoundToIntOfInt(h.r);
    RoundToIntOfInt(h.s);
  }

  /** When independent rounding already lands on the lattice, the repair step
      changes nothing. */
  lemma RoundKeepsConsistentRounding(h: FractionalHex)
    requires RoundToInt(h.q) + RoundToInt(h.r) + RoundToInt(h.s) == 0
    ensures Round(h) == Hex(RoundToInt(h.q), RoundToInt(h.r), RoundToInt(h.s))
  {
  }

  /** For a point of the plane (zero-sum input), every axis of the rounded hex
      lies within one unit of the input. */
  lemma RoundIsNear(h: FractionalHex)
    requires h.q + h.r + h.s == 0.0
    ensures AbsReal(Round(h).q as real - h.q) <= 1.0
    ensures AbsReal(Round(h).r as real - h.r) <= 1.0
    ensures AbsReal(Round(h).s as real - h.s) <= 1.0
  {
    var x := Round(h);
    var q, r, s := RoundToInt(h.q), RoundToInt(h.r), RoundToInt(h.s);
    assert x.q == q || x.q == -r - s;
    assert x.r == r || x.r == -q - s;
    assert x.s == s || x.s == -q - r;
  }

  /** Nudging a lattice hex by a small amount along `q` and `r`, as the line
      tracer does with both endpoints, still rounds back to that hex. */
  lemma RoundNudgedLatticePoint(h: Hex, e: real)
    requires ZeroSum(h) && 0.0 <= e < 0.25
    ensures Round(NewFractionalHex(h.q as real + e, h.r as real + e)) == h
  {
    var f := NewFractionalHex(h.q as real + e, h.r as real + e);
    assert f.s == h.s as real - 2.0 * e;
    assert RoundToInt(f.q) == h.q;
    assert RoundToInt(f.r) == h.r;
    assert RoundToInt(f.s) == h.s;
    RoundKeepsConsistentRounding(f);
  }

  /** Halves round away from zero, and an exact tie between the `q` and `r`
      residuals recomputes `r`. */
  lemma RoundExamples()
    ensures RoundToInt(0.5) == 1 && RoundToInt(-0.5) == -1 && RoundToInt(2.5) == 3
    ensures Round(FractionalHex(0.5, 0.5, -1.0)) == Hex(1, 0, -1)
  {
    assert RoundToInt(-1.0) == -1;
  }
}
