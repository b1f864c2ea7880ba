/**
 Line of sight and field of view. Both depend on how the line between two
 hexes is traced; that tracer is a parameter here, so every property below
 holds for whatever line the tracer returns.
 */
module HexVisibility {
  import opened HexCoords

  /** Traces the hexes on the line between two hexes. */
  type Tracer = (Hex, Hex) -> seq<Hex>

  /** Linear search with early exit; equality compares all three axes. */
  function Contains(s: seq<Hex>, e: Hex): (b: bool)
    ensures b <==> e in s
  {
    if s == [] then false
    else if s[0] == e then true
    else Contains(s[1..], e)
  }

  /** Walks `path` and stops at the first hex found among `blocking`. */
  function Unblocked(path: seq<Hex>, blocking: seq<Hex>): (b: bool)
    ensures b <==> forall h :: h in path ==> h !in blocking
  {
    if path == [] then true
    else if Contains(blocking, path[0]) then false
    else Unblocked(path[1..], blocking)
  }

  /** `target` is in sight from `center` when no hex of the traced line
      between them, endpoints included, is blocking. */
  function HasLineOfSight(line: Tracer, center: Hex, target: Hex, blocking: seq<Hex>): (b: bool)
    ensures b <==> forall h :: h in line(center, target) ==> h !in blocking
  {
    Unblocked(line(center, target), blocking)
  }

  /** The condition under which a candidate is kept: nothing blocks at all,
      the candidate is the source or next to it, or the line to it is clear. */
  predicate Visible(line: Tracer, source: Hex, h: Hex, blocking: seq<Hex>) {
    |blocking| == 0 || Distance(source, h) <= 1 || HasLineOfSight(line, source, h, blocking)
  }

  /** `r` is `s` with some elements dropped, the rest kept in order. */
  predicate IsSubsequence(r: seq<Hex>, s: seq<Hex>)
    decreases |s|
  {
    if r == [] then true
    else if s == [] then false
    else (r[0] == s[0] && IsSubsequence(r[1..], s[1..])) || IsSubsequence(r, s[1..])
  }

  /** The candidates visible from `source`, in their original order. The
      result keeps every copy of a visible candidate and no copy of any other,
      which determines it completely. */
  function FieldOfView(line: Tracer, source: Hex, candidates: seq<Hex>, blocking: seq<Hex>): (r: seq<Hex>)
    ensures IsSubsequence(r, candidates)
    ensures forall h :: multiset(r)[h] == if Visible(line, source, h, blocking) then multiset(candidates)[h] else 0
  {
    if candidates == [] then []
    else
      var h, rest := candidates[0], FieldOfView(line, source, candidates[1..], blocking);
      assert candidates == [h] + candidates[1..];
      if Visible(line, source, h, blocking) then
        assert ([h] + rest)[1..] == rest;
        [h] + rest
      else
        rest
  }

  /** A hex is in the field of view exactly when it is a visible candidate. */
  lemma FieldOfViewMembers(line: Tracer, source: Hex, candidates: seq<Hex>, blocking: seq<Hex>, h: Hex)
    ensures h in FieldOfView(line, source, candidates, blocking)
        <==> h in candidates && Visible(line, source, h, blocking)
  {
    var r := FieldOfView(line, source, candidates, blocking);
    assert h in r <==> multiset(r)[h] > 0;
    assert h in candidates <==> multiset(candidates)[h] > 0;
  }

  /** When every candidate is visible the field of view is all of them. */
  lemma {:induction false} FieldOfViewAllVisible(line: Tracer, source: Hex, candidates: seq<Hex>, blocking: seq<Hex>)
    requires forall h :: h in candidates ==> Visible(line, source, h, blocking)
    ensures FieldOfView(line, source, candidates, blocking) == candidates
    decreases |candidates|
  {
    if candidates != [] {
      assert candidates[0] in candidates;
      FieldOfViewAllVisible(line, source, candidates[1..], blocking);
      assert candidates == [candidates[0]] + candidates[1..];
    }
  }

  /** Without blocking hexes everything is visible. */
  lemma FieldOfViewNoBlockers(line: Tracer, source: Hex, candidates: seq<Hex>)
    ensures FieldOfView(line, source, candidates, []) == candidates
  {
    FieldOfViewAllVisible(line, source, candidates, []);
  }

  /** With every line clear, everything is visible. */
  lemma FieldOfViewAllClear(line: Tracer, source: Hex, candidates: seq<Hex>, blocking: seq<Hex>)
    requires forall h :: h in candidates ==> forall x :: x in line(source, h) ==> x !in blocking
    ensures FieldOfView(line, source, candidates, blocking) == candidates
  {
    FieldOfViewAllVisible(line, source, candidates, blocking);
  }

  /** The source and its neighbours are always visible, whatever blocks and
      whatever the tracer returns. */
  lemma FieldOfViewKeepsAdjacent(line: Tracer, source: Hex, candidates: seq<Hex>, blocking: seq<Hex>, h: Hex)
    requires h in candidates && Distance(source, h) <= 1
    ensures h in FieldOfView(line, source, candidates, blocking)
  {
    FieldOfViewMembers(line, source, candidates, blocking, h);
  }

  /** A candidate further than one step whose line passes through a blocking
      hex is hidden. */
  lemma FieldOfViewHidesBlocked(line: Tracer, source: Hex, candidates: seq<Hex>, blocking: seq<Hex>, h: Hex, x: Hex)
    requires Distance(source, h) > 1 && x in line(source, h) && x in blocking
    ensures h !in FieldOfView(line, source, candidates, blocking)
  {
    FieldOfViewMembers(line, source, candidates, blocking, h);
  }

  /** Adding blocking hexes never reveals anything: the field of view with
      more blockers is contained in the one with fewer. */
  lemma FieldOfViewMonotone(line: Tracer, source: Hex, candidates: seq<Hex>, fewer: seq<Hex>, more: seq<Hex>, h: Hex)
    requires forall x :: x in fewer ==> x in more
    requires h in FieldOfView(line, source, candidates, more)
    ensures h in FieldOfView(line, source, candidates, fewer)
  {
    FieldOfViewMembers(line, source, candidates, more, h);
    FieldOfViewMembers(line, source, candidates, fewer, h);
    if fewer != [] {
      assert fewer[0] in more;
    }
  }
}
