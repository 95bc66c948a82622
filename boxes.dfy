/** The running bounding box of the walker. The tool starts from the
    sentinel `(inf, inf, -inf, -inf)` and folds points in with `min`/`max`;
    here the sentinel is the constructor `Empty`, and every other box has
    finite corners. */
module Boxes {
  import opened Affine

  datatype Box = Empty | Box(minX: real, minY: real, maxX: real, maxY: real)

  predicate WellFormed(b: Box) {
    b.Box? ==> b.minX <= b.maxX && b.minY <= b.maxY
  }

  predicate Contains(b: Box, p: Point) {
    b.Box? && b.minX <= p.x <= b.maxX && b.minY <= p.y <= b.maxY
  }

  /** Every point of `b` is a point of `c`. */
  predicate Within(b: Box, c: Box) {
    b.Empty? || (c.Box? && c.minX <= b.minX && b.maxX <= c.maxX && c.minY <= b.minY && b.maxY <= c.maxY)
  }

  function Min(x: real, y: real): real {
    if x <= y then x else y
  }

  function Max(x: real, y: real): real {
    if x >= y then x else y
  }

  /** `minx = min(minx, tx); miny = min(miny, ty); maxx = max(maxx, tx);
      maxy = max(maxy, ty)`: the smallest box holding `b` and `p`. */
  function Include(b: Box, p: Point): (r: Box)
    ensures WellFormed(b) ==> WellFormed(r)
    ensures Contains(r, p) && Within(b, r)
    ensures forall c :: Within(b, c) && Contains(c, p) ==> Within(r, c)
  {
    match b
    case Empty => Box(p.x, p.y, p.x, p.y)
    case Box(x0, y0, x1, y1) => Box(Min(x0, p.x), Min(y0, p.y), Max(x1, p.x), Max(y1, p.y))
  }

  /** The corner-wise `min`/`max` of two boxes, as the walker merges a
      child's box into its own. It is the least box holding both. */
  function Union(b: Box, c: Box): (r: Box)
    ensures WellFormed(b) && WellFormed(c) ==> WellFormed(r)
    ensures Within(b, r) && Within(c, r)
    ensures forall d :: Within(b, d) && Within(c, d) ==> Within(r, d)
  {
    match (b, c)
    case (Empty, _) => c
    case (_, Empty) => b
    case (Box(x0, y0, x1, y1), Box(u0, v0, u1, v1)) => Box(Min(x0, u0), Min(y0, v0), Max(x1, u1), Max(y1, v1))
  }

  /** The box of a sequence of points, folded in order. */
  function Bound(ps: seq<Point>): (b: Box)
    ensures WellFormed(b)
    ensures b.Empty? <==> ps == []
    ensures forall i :: 0 <= i < |ps| ==> Contains(b, ps[i])
  {
    if ps == [] then Empty else Include(Bound(ps[..|ps| - 1]), ps[|ps| - 1])
  }

  /** The fold gives the least box holding every point: any box that holds
      them all holds `Bound(ps)`. */
  lemma {:induction false} BoundLeast(ps: seq<Point>, c: Box)
    requires forall i :: 0 <= i < |ps| ==> Contains(c, ps[i])
    ensures Within(Bound(ps), c)
  {
    if ps != [] {
      BoundLeast(ps[..|ps| - 1], c);
    }
  }

  /** Each edge of a non-empty box lies on one of the points. */
  lemma {:induction false} BoundAttained(ps: seq<Point>)
    requires ps != []
    ensures exists i :: 0 <= i < |ps| && ps[i].x == Bound(ps).minX
    ensures exists i :: 0 <= i < |ps| && ps[i].y == Bound(ps).minY
    ensures exists i :: 0 <= i < |ps| && ps[i].x == Bound(ps).maxX
    ensures exists i :: 0 <= i < |ps| && ps[i].y == Bound(ps).maxY
  {
    var n := |ps| - 1;
    if n > 0 {
      var init := ps[..n];
      BoundAttained(init);
      var b, c := Bound(ps), Bound(init);
      assert b == Include(c, ps[n]);
      var i0 :| 0 <= i0 < n && init[i0].x == c.minX;
      var i1 :| 0 <= i1 < n && init[i1].y == c.minY;
      var i2 :| 0 <= i2 < n && init[i2].x == c.maxX;
      var i3 :| 0 <= i3 < n && init[i3].y == c.maxY;
      assert ps[i0] == init[i0] && ps[i1] == init[i1] && ps[i2] == init[i2] && ps[i3] == init[i3];
      assert ps[if ps[n].x <= c.minX then n else i0].x == b.minX;
      assert ps[if ps[n].y <= c.minY then n else i1].y == b.minY;
      assert ps[if ps[n].x >= c.maxX then n else i2].x == b.maxX;
      assert ps[if ps[n].y >= c.maxY then n else i3].y == b.maxY;
    } else {
      assert ps[0].x == Bound(ps).minX && ps[0].y == Bound(ps).minY;
      assert ps[0].x == Bound(ps).maxX && ps[0].y == Bound(ps).maxY;
    }
  }

  /** Boxes that hold each other are the same box. */
  lemma WithinBothWays(b: Box, c: Box)
    requires WellFormed(b) && WellFormed(c) && Within(b, c) && Within(c, b)
    ensures b == c
  {
  }

  /** Points all drawn from `qs` give a box within `Bound(qs)`. */
  lemma BoundSubset(ps: seq<Point>, qs: seq<Point>)
    requires forall p :: p in ps ==> p in qs
    ensures Within(Bound(ps), Bound(qs))
  {
    forall i | 0 <= i < |ps|
      ensures Contains(Bound(qs), ps[i])
    {
      assert ps[i] in qs;
    }
    BoundLeast(ps, Bound(qs));
  }

  /** The box depends only on the set of points, not on their order or
      repetition. */
  lemma BoundSet(ps: seq<Point>, qs: seq<Point>)
    requires forall p :: p in ps <==> p in qs
    ensures Bound(ps) == Bound(qs)
  {
    BoundSubset(ps, qs);
    BoundSubset(qs, ps);
    WithinBothWays(Bound(ps), Bound(qs));
  }

  /** Folding two runs of points one after the other is merging their
      boxes. */
  lemma BoundConcat(ps: seq<Point>, qs: seq<Point>)
    ensures Bound(ps + qs) == Union(Bound(ps), Bound(qs))
  {
    var u := Union(Bound(ps), Bound(qs));
    forall i | 0 <= i < |ps + qs|
      ensures Contains(u, (ps + qs)[i])
    {
      if i < |ps| {
        assert Contains(Bound(ps), ps[i]);
      } else {
        assert Contains(Bound(qs), qs[i - |ps|]);
      }
    }
    BoundLeast(ps + qs, u);
    BoundSubset(ps, ps + qs);
    BoundSubset(qs, ps + qs);
    WithinBothWays(Bound(ps + qs), u);
  }
}
