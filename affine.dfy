/** The 2-D affine algebra of the walker. A matrix `(a, b, c, d, e, f)` is
    kept in the layout the tool itself uses: it maps `(x, y)` to
    `(a*x + b*y + e, c*x + d*y + f)`. */
module Affine {

  datatype Matrix = Matrix(a: real, b: real, c: real, d: real, e: real, f: real)

  datatype Point = Point(x: real, y: real)

  const Identity: Matrix := Matrix(1.0, 0.0, 0.0, 1.0, 0.0, 0.0)

  /** `apply_matrix_to_point(m, x, y)` */
  function Apply(m: Matrix, p: Point): (q: Point)
    ensures m == Identity ==> q == p
    ensures m.a == 1.0 && m.b == 0.0 && m.c == 0.0 && m.d == 1.0 ==> q == Point(p.x + m.e, p.y + m.f)
  {
    Point(m.a * p.x + m.b * p.y + m.e, m.c * p.x + m.d * p.y + m.f)
  }

  /** `multiply_matrix(m1, m2)`: the matrix that applies `m2` first and then
      `m1`. The identity is a unit on either side. */
  function Multiply(m1: Matrix, m2: Matrix): (r: Matrix)
    ensures m1 == Identity ==> r == m2
    ensures m2 == Identity ==> r == m1
  {
    Matrix(m1.a * m2.a + m1.b * m2.c, m1.a * m2.b + m1.b * m2.d,
           m1.c * m2.a + m1.d * m2.c, m1.c * m2.b + m1.d * m2.d,
           m1.a * m2.e + m1.b * m2.f + m1.e, m1.c * m2.e + m1.d * m2.f + m1.f)
  }

  /** One output coordinate of a product, expanded: the scalar identity
      behind `ApplyMultiply`. */
  lemma Expand(u: real, v: real, w: real, a: real, b: real, c: real, d: real, e: real, f: real, x: real, y: real)
    ensures u * (a * x + b * y + e) + v * (c * x + d * y + f) + w
         == (u * a + v * c) * x + (u * b + v * d) * y + (u * e + v * f + w)
  {
    assert u * (a * x + b * y + e) == (u * a) * x + (u * b) * y + u * e;
    assert v * (c * x + d * y + f) == (v * c) * x + (v * d) * y + v * f;
    assert (u * a + v * c) * x == (u * a) * x + (v * c) * x;
    assert (u * b + v * d) * y == (u * b) * y + (v * d) * y;
  }

  /** Applying a product is applying its factors in turn, right one first. */
  lemma ApplyMultiply(m1: Matrix, m2: Matrix, p: Point)
    ensures Apply(Multiply(m1, m2), p) == Apply(m1, Apply(m2, p))
  {
    Expand(m1.a, m1.b, m1.e, m2.a, m2.b, m2.c, m2.d, m2.e, m2.f, p.x, p.y);
    Expand(m1.c, m1.d, m1.f, m2.a, m2.b, m2.c, m2.d, m2.e, m2.f, p.x, p.y);
  }

  /** Two matrices that move every point alike are the same matrix: the
      images of the origin and of the two unit points fix all six entries. */
  lemma SameAction(m1: Matrix, m2: Matrix)
    requires Apply(m1, Point(0.0, 0.0)) == Apply(m2, Point(0.0, 0.0))
    requires Apply(m1, Point(1.0, 0.0)) == Apply(m2, Point(1.0, 0.0))
    requires Apply(m1, Point(0.0, 1.0)) == Apply(m2, Point(0.0, 1.0))
    ensures m1 == m2
  {
  }

  /** Composition is associative, so the cumulative matrix of a nested
      element does not depend on how the chain of transforms is grouped. */
  lemma MultiplyAssociative(m1: Matrix, m2: Matrix, m3: Matrix)
    ensures Multiply(Multiply(m1, m2), m3) == Multiply(m1, Multiply(m2, m3))
  {
    var l := Multiply(Multiply(m1, m2), m3);
    var r := Multiply(m1, Multiply(m2, m3));
    forall p: Point | p in {Point(0.0, 0.0), Point(1.0, 0.0), Point(0.0, 1.0)}
      ensures Apply(l, p) == Apply(r, p)
    {
      ApplyMultiply(Multiply(m1, m2), m3, p);
      ApplyMultiply(m1, m2, Apply(m3, p));
      ApplyMultiply(m1, Multiply(m2, m3), p);
      ApplyMultiply(m2, m3, p);
    }
    SameAction(l, r);
  }
}
