/**
 The six named directions of the lattice, their fixed unit offsets, and
 stepping to a neighbouring hex.
 */
module HexDirections {
  import opened HexCoords

  /** The closed set of directions, named by compass layout. */
  datatype Direction = SE | NE | N | NW | SW | S

  /** Every direction, in the order the direction table lists them. */
  const AllDirections: seq<Direction> := [SE, NE, N, NW, SW, S]

  /** The direction table: one unit offset per direction. */
  function Offset(d: Direction): Hex {
    match d
    case SE => NewHex(1, 0)
    case NE => NewHex(1, -1)
    case N => NewHex(0, -1)
    case NW => NewHex(-1, 0)
    case SW => NewHex(-1, 1)
    case S => NewHex(0, 1)
  }

  /** The direction pointing the opposite way. */
  function Opposite(d: Direction): (e: Direction)
    ensures e != d
  {
    match d
    case SE => NW
    case NE => SW
    case N => S
    case NW => SE
    case SW => NE
    case S => N
  }

  /** The table lists each of the six directions exactly once. */
  lemma AllDirectionsListed()
    ensures |AllDirections| == 6
    ensures forall d: Direction :: d in AllDirections
    ensures forall i, j :: 0 <= i < j < |AllDirections| ==> AllDirections[i] != AllDirections[j]
  {
    forall d: Direction
      ensures d in AllDirections
    {
      match d
      case SE => assert AllDirections[0] == d;
      case NE => assert AllDirections[1] == d;
      case N => assert AllDirections[2] == d;
      case NW => assert AllDirections[3] == d;
      case SW => assert AllDirections[4] == d;
      case S => assert AllDirections[5] == d;
    }
  }

  /** Each offset is a lattice hex one step from the origin. */
  lemma OffsetIsUnit(d: Direction)
    ensures ZeroSum(Offset(d)) && Length(Offset(d)) == 1
  {
  }

  /** Distinct directions have distinct offsets. */
  lemma OffsetsDistinct(d1: Direction, d2: Direction)
    ensures Offset(d1) == Offset(d2) <==> d1 == d2
    ensures d1 != d2 ==> Offset(d1).q != Offset(d2).q || Offset(d1).r != Offset(d2).r
  {
  }

  /** Opposite directions have opposite offsets. */
  lemma OppositeOffsetsCancel(d: Direction)
    ensures Add(Offset(d), Offset(Opposite(d))) == Origin
  {
  }

  /** Every lattice hex of length one is the offset of some direction. */
  lemma {:induction false} UnitHexIsOffset(u: Hex)
    requires ZeroSum(u) && Length(u) == 1
    ensures exists d :: Offset(d) == u
  {
    assert MaxAbs(u) == 1;
    assert -1 <= u.q <= 1 && -1 <= u.r <= 1 && u.s == -u.q - u.r;
    var d :=
      if u.q == 1 && u.r == 0 then SE
      else if u.q == 1 then NE
      else if u.q == 0 && u.r == -1 then N
      else if u.q == 0 then S
      else if u.r == 0 then NW
      else SW;
    var o := Offset(d);
    assert o.q == u.q && o.r == u.r && o.s == u.s;
  }

  /** Steps from `h` to the adjacent hex in direction `d`. */
  function Neighbor(h: Hex, d: Direction): Hex {
    var offset := Offset(d);
    NewHex(h.q + offset.q, h.r + offset.r)
  }

  /** A neighbour lies on the lattice, one step away. */
  lemma NeighborAdjacent(h: Hex, d: Direction)
    ensures ZeroSum(Neighbor(h, d))
    ensures Distance(h, Neighbor(h, d)) == 1
  {
    var o, n := Offset(d), Neighbor(h, d);
    assert ZeroSum(n);
    assert h.q - n.q == -o.q && h.r - n.r == -o.r;
    assert AxialNorm(-o.q, -o.r) == 1 by {
      match d
      case SE => {}
      case NE => {}
      case N => {}
      case NW => {}
      case SW => {}
      case S => {}
    }
  }

  /** A neighbour is the hex translated by the direction's table offset. */
  lemma NeighborIsTranslation(h: Hex, d: Direction)
    ensures Neighbor(h, d) == Add(h, Offset(d))
  {
  }

  /** The six neighbours of a hex are pairwise distinct. */
  lemma NeighborsDistinct(h: Hex, d1: Direction, d2: Direction)
    requires d1 != d2
    ensures Neighbor(h, d1) != Neighbor(h, d2)
  {
    var o1, o2 := Offset(d1), Offset(d2);
    OffsetsDistinct(d1, d2);
    assert o1.q != o2.q || o1.r != o2.r;
    var n1, n2 := Neighbor(h, d1), Neighbor(h, d2);
    assert n1.q == h.q + o1.q && n1.r == h.r + o1.r;
    assert n2.q == h.q + o2.q && n2.r == h.r + o2.r;
  }

  /** Stepping in each of the listed directions gives six different hexes. */
  lemma AllNeighborsDistinct(h: Hex)
    ensures forall i, j :: 0 <= i < j < |AllDirections| ==>
      Neighbor(h, AllDirections[i]) != Neighbor(h, AllDirections[j])
  {
    AllDirectionsListed();
    forall i, j | 0 <= i < j < |AllDirections|
      ensures Neighbor(h, AllDirections[i]) != Neighbor(h, AllDirections[j])
    {
      NeighborsDistinct(h, AllDirections[i], AllDirections[j]);
    }
  }

  lemma NeighborAtOffset(h: Hex, x: Hex, d: Direction)
    requires ZeroSum(x) && Offset(d) == NewHex(x.q - h.q, x.r - h.r)
    ensures Neighbor(h, d) == x
  {
    var n := Neighbor(h, d);
    assert n.q == x.q && n.r == x.r && n.s == x.s;
  }

  /** The neighbours are exactly the lattice hexes at distance one. */
  lemma {:induction false} NeighborsAreUnitRing(h: Hex, x: Hex)
    requires ZeroSum(x)
    ensures Distance(h, x) == 1 <==> exists d :: Neighbor(h, d) == x
  {
    var u := NewHex(x.q - h.q, x.r - h.r);
    assert Distance(h, x) == Length(u) by {
      DistanceSymmetric(h, x);
    }
    if Length(u) == 1 {
      UnitHexIsOffset(u);
      var d :| Offset(d) == u;
      NeighborAtOffset(h, x, d);
    }
    if exists d :: Neighbor(h, d) == x {
      var d :| Neighbor(h, d) == x;
      NeighborAdjacent(h, d);
    }
  }

  /** Stepping back the opposite way returns to the start. */
  lemma NeighborOpposite(h: Hex, d: Direction)
    requires ZeroSum(h)
    ensures Neighbor(Neighbor(h, d), Opposite(d)) == h
  {
  }

  /** The neighbours of (0,-1), written out with their derived third axis. */
  lemma NeighborExamples()
    ensures Neighbor(Hex(0, -1, 1), SE) == Hex(1, -1, 0)
    ensures Neighbor(Hex(0, -1, 1), NE) == Hex(1, -2, 1)
    ensures Neighbor(Hex(0, -1, 1), N) == Hex(0, -2, 2)
    ensures Neighbor(Hex(0, -1, 1), NW) == Hex(-1, -1, 2)
    ensures Neighbor(Hex(0, -1, 1), SW) == Hex(-1, 0, 1)
    ensures Neighbor(Hex(0, -1, 1), S) == Hex(0, 0, 0)
  {
    forall d: Direction
      ensures Neighbor(Hex(0, -1, 1), d) == Add(Hex(0, -1, 1), Offset(d))
    {
      NeighborIsTranslation(Hex(0, -1, 1), d);
    }
  }
}
