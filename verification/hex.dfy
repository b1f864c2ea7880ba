/**
 Cube coordinates on a hexagonal lattice: the `Hex` value, its constructor,
 translation, scaling and the hex distance metric.
 */
module HexCoords {

  /** A hexagon in cube coordinates. The third axis `s` is redundant: every
      hex built through `NewHex` carries `s == -q - r`. */
  datatype Hex = Hex(q: int, r: int, s: int)

  /** The lattice invariant every constructed hex satisfies. */
  predicate ZeroSum(h: Hex) {
    h.q + h.r + h.s == 0
  }

  /** Builds a hex from its two independent axes, deriving the third. */
  function NewHex(q: int, r: int): Hex {
    Hex(q, r, -q - r)
  }

  /** Whatever the axes, the constructed hex lies on the lattice and keeps
      the axes it was given. */
  lemma NewHexOnLattice(q: int, r: int)
    ensures ZeroSum(NewHex(q, r))
    ensures NewHex(q, r).q == q && NewHex(q, r).r == r
  {
  }

  /** The centre of the lattice. */
  const Origin: Hex := NewHex(0, 0)

  /** A zero-sum hex is fully determined by its `q` and `r` axes. */
  lemma ZeroSumExtensional(a: Hex, b: Hex)
    requires ZeroSum(a) && ZeroSum(b)
    ensures a == b <==> (a.q == b.q && a.r == b.r)
    ensures a == NewHex(a.q, a.r)
  {
  }

  function Add(a: Hex, b: Hex): Hex {
    NewHex(a.q + b.q, a.r + b.r)
  }

  function Sub(a: Hex, b: Hex): Hex {
    NewHex(a.q - b.q, a.r - b.r)
  }

  /** Scales a hex by an integer factor (a negative factor reflects
      through the origin). */
  function Scale(a: Hex, k: int): Hex {
    NewHex(a.q * k, a.r * k)
  }

  /** Translation and scaling never leave the lattice, and on lattice inputs
      they act on the derived third axis exactly as on the other two. */
  lemma ArithmeticOnLattice(a: Hex, b: Hex, k: int)
    ensures ZeroSum(Add(a, b)) && ZeroSum(Sub(a, b)) && ZeroSum(Scale(a, k))
    ensures ZeroSum(a) && ZeroSum(b) ==> Add(a, b).s == a.s + b.s && Sub(a, b).s == a.s - b.s
    ensures ZeroSum(a) ==> Scale(a, k).s == a.s * k
  {
  }

  function Abs(x: int): nat {
    if x < 0 then -x else x
  }

  function Max(a: int, b: int): int {
    if a < b then b else a
  }

  function Min(a: int, b: int): int {
    if a < b then a else b
  }

  /** The largest absolute coordinate: the hex norm, stated independently of
      the halved-sum formula `Length` computes. */
  function MaxAbs(h: Hex): nat {
    Max(Abs(h.q), Max(Abs(h.r), Abs(h.s)))
  }

  /** On the lattice exactly one axis has the sign opposite to the other two,
      so the absolute coordinates sum to twice the largest of them. */
  lemma {:induction false} AbsSumIsTwiceMax(h: Hex)
    requires ZeroSum(h)
    ensures Abs(h.q) + Abs(h.r) + Abs(h.s) == 2 * MaxAbs(h)
  {
    if h.q >= 0 && h.r >= 0 {
      assert Abs(h.s) == h.q + h.r;
    } else if h.q < 0 && h.r < 0 {
      assert Abs(h.s) == -(h.q + h.r);
    } else if h.q >= 0 {
      assert Abs(h.q) + Abs(h.r) + Abs(h.s) == 2 * Max(Abs(h.q), Abs(h.r));
    } else {
      assert Abs(h.q) + Abs(h.r) + Abs(h.s) == 2 * Max(Abs(h.q), Abs(h.r));
    }
  }

  /** Integer halving of an even number, kept as a separate step so that the
      division in `Length` is not mixed with the case analysis above. */
  lemma HalfOfTwice(x: int, m: int)
    requires x == 2 * m
    ensures x / 2 == m
  {
  }

  /** Number of steps from the origin: half the sum of absolute coordinates
      (integer division). On the lattice the halving is exact and the result
      is the largest absolute coordinate. */
  function Length(h: Hex): (n: nat)
    ensures ZeroSum(h) ==> n == MaxAbs(h)
  {
    var sum := Abs(h.q) + Abs(h.r) + Abs(h.s);
    if ZeroSum(h) then
      AbsSumIsTwiceMax(h);
      HalfOfTwice(sum, MaxAbs(h));
      sum / 2
    else
      sum / 2
  }

  /** The halving in `Length` loses nothing on the lattice, and only the
      origin has length zero. */
  lemma LengthExact(h: Hex)
    requires ZeroSum(h)
    ensures 2 * Length(h) == Abs(h.q) + Abs(h.r) + Abs(h.s)
    ensures Length(h) == 0 <==> h == Origin
  {
    AbsSumIsTwiceMax(h);
  }

  /** Number of steps between two hexes. Only the `q` and `r` axes of the
      arguments take part, since `Sub` derives the third. */
  function Distance(a: Hex, b: Hex): (d: nat)
    ensures d == 0 <==> (a.q == b.q && a.r == b.r)
    ensures d == AxialNorm(a.q - b.q, a.r - b.r)
  {
    Length(Sub(a, b))
  }

  // ---------------------------------------------------------------------
  // Arithmetic laws

  lemma AddCommutative(a: Hex, b: Hex)
    ensures Add(a, b) == Add(b, a)
  {
  }

  lemma AddAssociative(a: Hex, b: Hex, c: Hex)
    ensures Add(Add(a, b), c) == Add(a, Add(b, c))
  {
  }

  lemma AddOrigin(a: Hex)
    requires ZeroSum(a)
    ensures Add(a, Origin) == a && Add(Origin, a) == a
  {
  }

  /** `Sub` undoes `Add` and `Add` undoes `Sub`. */
  lemma AddSubInverse(a: Hex, b: Hex)
    requires ZeroSum(a)
    ensures Sub(Add(a, b), b) == a
    ensures Add(Sub(a, b), b) == a
  {
  }

  lemma SubSelf(a: Hex)
    ensures Sub(a, a) == Origin
  {
  }

  /** Scaling by one changes nothing on the lattice; scaling any hex by zero
      collapses to the origin. */
  lemma ScaleIdentities(a: Hex)
    ensures ZeroSum(a) ==> Scale(a, 1) == a
    ensures Scale(a, 0) == Origin
  {
  }

  lemma AbsMul(x: int, k: int)
    ensures Abs(x * k) == Abs(x) * Abs(k)
  {
    if x < 0 && k < 0 {
      assert x * k == (-x) * (-k);
    } else if x < 0 {
      assert -(x * k) == (-x) * k;
    } else if k < 0 {
      assert -(x * k) == x * (-k);
    }
  }

  lemma MaxMul(a: int, b: int, c: nat)
    ensures Max(a * c, b * c) == Max(a, b) * c
  {
    if a < b {
      assert a * c <= b * c;
    } else {
      assert b * c <= a * c;
    }
  }

  lemma MaxAbsMul(x: int, y: int, z: int, k: int)
    ensures Max(Abs(x * k), Max(Abs(y * k), Abs(z * k))) == Max(Abs(x), Max(Abs(y), Abs(z))) * Abs(k)
  {
    AbsMul(x, k);
    AbsMul(y, k);
    AbsMul(z, k);
    MaxMul(Abs(y), Abs(z), Abs(k));
    MaxMul(Abs(x), Max(Abs(y), Abs(z)), Abs(k));
  }

  /** Scaling multiplies the length by the absolute factor. */
  lemma LengthScale(a: Hex, k: int)
    requires ZeroSum(a)
    ensures Length(Scale(a, k)) == Length(a) * Abs(k)
  {
    ArithmeticOnLattice(a, a, k);
    MaxAbsMul(a.q, a.r, a.s, k);
  }

  // ---------------------------------------------------------------------
  // Metric laws

  lemma DistanceSelf(a: Hex)
    ensures Distance(a, a) == 0
  {
  }

  /** On the lattice, distance zero means the same hex. */
  lemma DistanceZeroIff(a: Hex, b: Hex)
    requires ZeroSum(a) && ZeroSum(b)
    ensures Distance(a, b) == 0 <==> a == b
  {
    ZeroSumExtensional(a, b);
  }

  lemma DistanceSymmetric(a: Hex, b: Hex)
    ensures Distance(a, b) == Distance(b, a)
  {
  }

  lemma AbsTriangle(x: int, y: int)
    ensures Abs(x + y) <= Abs(x) + Abs(y)
  {
  }

  /** The hex norm of the lattice hex with free axes `x` and `y`: what
      `Distance` reduces to, since only those two axes of a difference take
      part. */
  function AxialNorm(x: int, y: int): nat {
    MaxAbs(NewHex(x, y))
  }

  lemma AxialNormTriangle(x1: int, y1: int, x2: int, y2: int, x3: int, y3: int)
    requires x3 == x1 + x2 && y3 == y1 + y2
    ensures AxialNorm(x3, y3) <= AxialNorm(x1, y1) + AxialNorm(x2, y2)
  {
    AbsTriangle(x1, x2);
    AbsTriangle(y1, y2);
    AbsTriangle(x1 + y1, x2 + y2);
    assert x3 + y3 == (x1 + y1) + (x2 + y2);
  }

  lemma DistanceTriangle(a: Hex, b: Hex, c: Hex)
    ensures Distance(a, c) <= Distance(a, b) + Distance(b, c)
  {
    NormTriangle(a.q - b.q, a.r - b.r, b.q - c.q, b.r - c.r, a.q - c.q, a.r - c.r,
      Distance(a, b), Distance(b, c), Distance(a, c));
  }

  /** `AxialNormTriangle` with the three norms passed in already evaluated,
      so that they match the terms `Distance` unfolds to. */
  lemma NormTriangle(x1: int, y1: int, x2: int, y2: int, x3: int, y3: int, n1: int, n2: int, n3: int)
    requires x3 == x1 + x2 && y3 == y1 + y2
    requires n1 == AxialNorm(x1, y1) && n2 == AxialNorm(x2, y2) && n3 == AxialNorm(x3, y3)
    ensures n3 <= n1 + n2
  {
    AxialNormTriangle(x1, y1, x2, y2, x3, y3);
  }

  lemma AxialNormNegate(x: int, y: int)
    ensures AxialNorm(-x, -y) == AxialNorm(x, y)
  {
    assert Abs(-x) == Abs(x) && Abs(-y) == Abs(y) && Abs(-x + -y) == Abs(x + y);
  }

  /** On the lattice the length is the axial norm of the two free axes. */
  lemma LengthIsAxialNorm(x: int, y: int)
    ensures Length(NewHex(x, y)) == AxialNorm(x, y)
  {
    var h := NewHex(x, y);
    assert ZeroSum(h);
    assert Abs(h.s) == Abs(x + y);
  }

  /** Translating both hexes by the same offset keeps their distance. */
  lemma DistanceTranslate(a: Hex, b: Hex, c: Hex)
    ensures Distance(Add(a, c), Add(b, c)) == Distance(a, b)
  {
    var ac, bc := Add(a, c), Add(b, c);
    assert ac.q - bc.q == a.q - b.q && ac.r - bc.r == a.r - b.r;
  }

  /** A hex translated by `a` lies as far from the start as `a` lies from
      the origin. */
  lemma DistanceToTranslate(c: Hex, a: Hex)
    ensures Distance(c, Add(c, a)) == Length(NewHex(a.q, a.r))
  {
    var ca := Add(c, a);
    assert c.q - ca.q == -a.q && c.r - ca.r == -a.r;
    AxialNormNegate(a.q, a.r);
    LengthIsAxialNorm(a.q, a.r);
  }

  /** The distance from the origin is the length. */
  lemma DistanceFromOrigin(h: Hex)
    requires ZeroSum(h)
    ensures Distance(Origin, h) == Length(h) && Distance(h, Origin) == Length(h)
  {
  }

  // ---------------------------------------------------------------------
  // Concrete values

  lemma ArithmeticExamples()
    ensures Add(NewHex(1, -3), NewHex(3, -7)) == NewHex(4, -10)
    ensures Sub(NewHex(1, -3), NewHex(3, -7)) == NewHex(-2, 4)
    ensures Scale(NewHex(1, -3), 2) == NewHex(2, -6)
    ensures Scale(NewHex(-2, 3), 2) == NewHex(-4, 6)
  {
  }

  lemma DistanceExamples()
    ensures Distance(NewHex(-1, -1), NewHex(1, -1)) == 2
    ensures Distance(NewHex(-1, -1), NewHex(0, 0)) == 2
    ensures Distance(NewHex(0, -1), NewHex(0, -2)) == 1
    ensures Distance(NewHex(-1, -1), NewHex(0, 1)) == 3
    ensures Distance(NewHex(1, 0), NewHex(-1, -1)) == 3
  {
    assert AxialNorm(-2, 0) == 2;
    assert AxialNorm(-1, -1) == 2;
    assert AxialNorm(0, 1) == 1;
    assert AxialNorm(-1, -2) == 3;
    assert AxialNorm(2, 1) == 3;
  }
}
