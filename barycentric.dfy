/**
 * The barycentric point-in-triangle test shared by every engine variant (`isPointInsideTriangle`) and by
 * the stub `Interceptor` (`isPointInTriangle`, which takes the two edges in the other order).
 */
module Barycentric {
  import opened Common
  import opened Geometry

  /** The five dot products `dot00 … dot12` of the edge basis `v0`, `v1` and the offset `v2 = p - a`. */
  datatype Dots = Dots(d00: real, d01: real, d02: real, d11: real, d12: real)

  function DotsOf(v0: Vec3, v1: Vec3, v2: Vec3): Dots {
    Dots(Dot(v0, v0), Dot(v0, v1), Dot(v0, v2), Dot(v1, v1), Dot(v1, v2))
  }

  /** `dot00 * dot11 - dot01 * dot01`, the denominator the source inverts. */
  function Denominator(ds: Dots): real {
    ds.d00 * ds.d11 - ds.d01 * ds.d01
  }

  /**
   * The coordinates `(u, v)`, or `None` when the denominator is zero: there the source divides by zero
   * and gets an infinite or NaN `u` and `v`, for which `u >= 0 && v >= 0 && u + v <= 1` is false.
   */
  function Coordinates(ds: Dots): Option<(real, real)> {
    if Denominator(ds) == 0.0 then None else Some((U(ds), V(ds)))
  }

  /** `u = (dot11 * dot02 - dot01 * dot12) * invDenom`. */
  function U(ds: Dots): real
    requires Denominator(ds) != 0.0
  {
    (ds.d11 * ds.d02 - ds.d01 * ds.d12) * (1.0 / Denominator(ds))
  }

  /** `v = (dot00 * dot12 - dot01 * dot02) * invDenom`. */
  function V(ds: Dots): real
    requires Denominator(ds) != 0.0
  {
    (ds.d00 * ds.d12 - ds.d01 * ds.d02) * (1.0 / Denominator(ds))
  }

  /** The acceptance test `u >= 0 && v >= 0 && u + v <= 1`. */
  predicate InUnitSimplex(uv: (real, real)) {
    uv.0 >= 0.0 && uv.1 >= 0.0 && uv.0 + uv.1 <= 1.0
  }

  predicate Accepts(c: Option<(real, real)>) {
    c.Some? && InUnitSimplex(c.value)
  }

  function Edge0(t: Triangle): Vec3 { Sub(t.b, t.a) }

  function Edge1(t: Triangle): Vec3 { Sub(t.c, t.a) }

  /** The denominator of triangle `t` in the basis `(b - a, c - a)`; it does not depend on the point. */
  function TriangleDenominator(t: Triangle): real {
    Denominator(DotsOf(Edge0(t), Edge1(t), Origin))
  }

  /** `isPointInsideTriangle(p, [a, b, c])` of the engine, with basis `v0 = b - a`, `v1 = c - a`. */
  predicate IsPointInsideTriangle(p: Vec3, t: Triangle) {
    Accepts(Coordinates(DotsOf(Edge0(t), Edge1(t), Sub(p, t.a))))
  }

  /** The point `a + u (b - a) + v (c - a)` with barycentric coordinates `(u, v)`. */
  function PointAt(t: Triangle, u: real, v: real): Vec3 {
    Add(t.a, Add(Scale(Edge0(t), u), Scale(Edge1(t), v)))
  }

  /** The midpoint `a + (b - a) * 0.5` exactly as the source builds it with `sub`, `mul` and `add`. */
  function Midpoint(a: Vec3, b: Vec3): Vec3 {
    Add(a, Scale(Sub(b, a), 0.5))
  }

  // ---------------------------------------------------------------------------------------------------
  // The denominator.

  /**
   * Lagrange's identity: the denominator is the squared length of `v0 × v1`. Hence it is never negative
   * and it is zero exactly for a degenerate triangle (collinear vertices).
   */
  lemma DenominatorIsCrossNorm(t: Triangle)
    ensures TriangleDenominator(t) == Dot(Cross(Edge0(t), Edge1(t)), Cross(Edge0(t), Edge1(t)))
    ensures TriangleDenominator(t) >= 0.0
  {
    var e0, e1 := Edge0(t), Edge1(t);
    var n := Cross(e0, e1);
    Lagrange(e0.x, e0.y, e0.z, e1.x, e1.y, e1.z);
    SumOfSquares(n.x, n.y, n.z);
  }

  lemma Lagrange(x1: real, y1: real, z1: real, x2: real, y2: real, z2: real)
    ensures (x1 * x1 + y1 * y1 + z1 * z1) * (x2 * x2 + y2 * y2 + z2 * z2)
              - (x1 * x2 + y1 * y2 + z1 * z2) * (x1 * x2 + y1 * y2 + z1 * z2)
            == (y1 * z2 - z1 * y2) * (y1 * z2 - z1 * y2) + (z1 * x2 - x1 * z2) * (z1 * x2 - x1 * z2)
               + (x1 * y2 - y1 * x2) * (x1 * y2 - y1 * x2)
  {
  }

  /** The denominator the point test uses is the triangle's own, whatever the point. */
  lemma DenominatorOfPoint(p: Vec3, t: Triangle)
    ensures Denominator(DotsOf(Edge0(t), Edge1(t), Sub(p, t.a))) == TriangleDenominator(t)
  {
  }

  /** A degenerate triangle (zero denominator) accepts no point at all. */
  lemma DegenerateRejects(p: Vec3, t: Triangle)
    requires Cross(Edge0(t), Edge1(t)) == Origin
    ensures !IsPointInsideTriangle(p, t)
  {
    DenominatorIsCrossNorm(t);
    DenominatorOfPoint(p, t);
  }

  // ---------------------------------------------------------------------------------------------------
  // Round trip: the coordinates of `PointAt(t, u, v)` are `(u, v)`.

  lemma OffsetOfPointAt(t: Triangle, u: real, v: real)
    ensures Sub(PointAt(t, u, v), t.a) == Add(Scale(Edge0(t), u), Scale(Edge1(t), v))
  {
  }

  lemma DotOfCombination(e: Vec3, e0: Vec3, e1: Vec3, u: real, v: real)
    ensures Dot(e, Add(Scale(e0, u), Scale(e1, v))) == u * Dot(e, e0) + v * Dot(e, e1)
  {
  }

  lemma DotSymmetric(a: Vec3, b: Vec3)
    ensures Dot(a, b) == Dot(b, a)
  {
  }

  /** Solving the 2x2 system by Cramer's rule gives back the coefficients. */
  lemma Cramer(ds: Dots, u: real, v: real)
    requires Denominator(ds) != 0.0
    requires ds.d02 == u * ds.d00 + v * ds.d01 && ds.d12 == u * ds.d01 + v * ds.d11
    ensures Coordinates(ds) == Some((u, v))
  {
    CramerU(ds, u, v);
    CramerV(ds, u, v);
  }

  lemma CramerU(ds: Dots, u: real, v: real)
    requires Denominator(ds) != 0.0
    requires ds.d02 == u * ds.d00 + v * ds.d01 && ds.d12 == u * ds.d01 + v * ds.d11
    ensures U(ds) == u
  {
    Cancel(ds.d11 * ds.d02 - ds.d01 * ds.d12, u, Denominator(ds));
  }

  lemma CramerV(ds: Dots, u: real, v: real)
    requires Denominator(ds) != 0.0
    requires ds.d02 == u * ds.d00 + v * ds.d01 && ds.d12 == u * ds.d01 + v * ds.d11
    ensures V(ds) == v
  {
    Cancel(ds.d00 * ds.d12 - ds.d01 * ds.d02, v, Denominator(ds));
  }

  lemma Cancel(num: real, u: real, den: real)
    requires den != 0.0 && num == u * den
    ensures num * (1.0 / den) == u
  {
  }

  lemma {:induction false} CoordinatesOfPointAt(t: Triangle, u: real, v: real)
    requires TriangleDenominator(t) != 0.0
    ensures Coordinates(DotsOf(Edge0(t), Edge1(t), Sub(PointAt(t, u, v), t.a))) == Some((u, v))
  {
    var e0, e1 := Edge0(t), Edge1(t);
    var w := Sub(PointAt(t, u, v), t.a);
    OffsetOfPointAt(t, u, v);
    DotOfCombination(e0, e0, e1, u, v);
    DotOfCombination(e1, e0, e1, u, v);
    DotSymmetric(e1, e0);
    var ds := DotsOf(e0, e1, w);
    DenominatorOfPoint(PointAt(t, u, v), t);
    Cramer(ds, u, v);
  }

  /**
   * For a non-degenerate triangle, a point of its plane written as `a + u (b - a) + v (c - a)` is accepted
   * exactly when `(u, v)` lies in the unit simplex: the test decides membership in the closed triangle.
   */
  lemma InsideIffInSimplex(t: Triangle, u: real, v: real)
    requires TriangleDenominator(t) != 0.0
    ensures IsPointInsideTriangle(PointAt(t, u, v), t) <==> u >= 0.0 && v >= 0.0 && u + v <= 1.0
  {
    CoordinatesOfPointAt(t, u, v);
  }

  /** A non-degenerate triangle accepts each of its three vertices. */
  lemma VerticesInside(t: Triangle)
    requires TriangleDenominator(t) != 0.0
    ensures IsPointInsideTriangle(t.a, t)
    ensures IsPointInsideTriangle(t.b, t)
    ensures IsPointInsideTriangle(t.c, t)
  {
    assert PointAt(t, 0.0, 0.0) == t.a;
    assert PointAt(t, 1.0, 0.0) == t.b;
    assert PointAt(t, 0.0, 1.0) == t.c;
    InsideIffInSimplex(t, 0.0, 0.0);
    InsideIffInSimplex(t, 1.0, 0.0);
    InsideIffInSimplex(t, 0.0, 1.0);
  }

  // ---------------------------------------------------------------------------------------------------
  // Convexity: the coordinates of a midpoint are the averages of the endpoints' coordinates.

  lemma DotOfMidpointOffset(e: Vec3, a: Vec3, p: Vec3, q: Vec3)
    ensures Dot(e, Sub(Midpoint(p, q), a)) == 0.5 * Dot(e, Sub(p, a)) + 0.5 * Dot(e, Sub(q, a))
  {
  }

  lemma Average(d11: real, d01: real, inv: real, a0: real, a1: real, b0: real, b1: real)
    ensures (d11 * (0.5 * a0 + 0.5 * b0) - d01 * (0.5 * a1 + 0.5 * b1)) * inv
            == 0.5 * ((d11 * a0 - d01 * a1) * inv) + 0.5 * ((d11 * b0 - d01 * b1) * inv)
  {
  }

  /** Over a common basis, averaging the offsets averages the coordinates. */
  lemma AverageCoordinates(dp: Dots, dq: Dots, dm: Dots)
    requires dp.d00 == dm.d00 && dq.d00 == dm.d00 && dp.d01 == dm.d01 && dq.d01 == dm.d01
    requires dp.d11 == dm.d11 && dq.d11 == dm.d11
    requires dm.d02 == 0.5 * dp.d02 + 0.5 * dq.d02 && dm.d12 == 0.5 * dp.d12 + 0.5 * dq.d12
    requires Denominator(dm) != 0.0
    ensures U(dm) == 0.5 * U(dp) + 0.5 * U(dq)
    ensures V(dm) == 0.5 * V(dp) + 0.5 * V(dq)
  {
    var inv := 1.0 / Denominator(dm);
    Average(dm.d11, dm.d01, inv, dp.d02, dp.d12, dq.d02, dq.d12);
    Average(dm.d00, dm.d01, inv, dp.d12, dp.d02, dq.d12, dq.d02);
  }

  /** If both endpoints are accepted, their midpoint is accepted too. */
  lemma {:induction false} MidpointInside(p: Vec3, q: Vec3, t: Triangle)
    requires IsPointInsideTriangle(p, t) && IsPointInsideTriangle(q, t)
    ensures IsPointInsideTriangle(Midpoint(p, q), t)
  {
    var e0, e1, m := Edge0(t), Edge1(t), Midpoint(p, q);
    var dp, dq, dm := DotsOf(e0, e1, Sub(p, t.a)), DotsOf(e0, e1, Sub(q, t.a)), DotsOf(e0, e1, Sub(m, t.a));
    DotOfMidpointOffset(e0, t.a, p, q);
    DotOfMidpointOffset(e1, t.a, p, q);
    DenominatorOfPoint(p, t);
    DenominatorOfPoint(m, t);
    AverageCoordinates(dp, dq, dm);
  }

  // ---------------------------------------------------------------------------------------------------
  // The variant spellings.

  /** `vec3Sub(target, a, b)` of the third engine variant: `a + (-b)`, which is `a - b`. */
  function Vec3Sub(a: Vec3, b: Vec3): (r: Vec3)
    ensures r == Sub(a, b)
    ensures Add(r, b) == a
  {
    Add(a, Neg(b))
  }

  /** The third variant's `isPointInsideTriangle`, which builds its offsets with `Vec3Sub`. */
  predicate IsPointInsideTriangleV3(p: Vec3, t: Triangle) {
    Accepts(Coordinates(DotsOf(Vec3Sub(t.b, t.a), Vec3Sub(t.c, t.a), Vec3Sub(p, t.a))))
  }

  lemma InsideV3Agrees(p: Vec3, t: Triangle)
    ensures IsPointInsideTriangleV3(p, t) <==> IsPointInsideTriangle(p, t)
  {
  }

  /** `Interceptor.isPointInTriangle`: the same test with the basis `v0 = c - a`, `v1 = b - a`. */
  predicate IsPointInTriangle(p: Vec3, t: Triangle) {
    Accepts(Coordinates(DotsOf(Edge1(t), Edge0(t), Sub(p, t.a))))
  }

  /** The dot products of the exchanged basis `(v1, v0)`. */
  function Swapped(ds: Dots): Dots {
    Dots(ds.d11, ds.d01, ds.d12, ds.d00, ds.d02)
  }

  /** Exchanging the two basis vectors exchanges `u` and `v`. */
  lemma SwappedCoordinates(ds: Dots)
    ensures Coordinates(Swapped(ds)).None? <==> Coordinates(ds).None?
    ensures Coordinates(ds).Some? ==>
              Coordinates(Swapped(ds)) == Some((Coordinates(ds).value.1, Coordinates(ds).value.0))
  {
    assert Denominator(Swapped(ds)) == Denominator(ds);
    if Denominator(ds) != 0.0 {
      SwappedUV(ds);
    }
  }

  lemma SwappedUV(ds: Dots)
    requires Denominator(ds) != 0.0
    ensures Denominator(Swapped(ds)) == Denominator(ds)
    ensures U(Swapped(ds)) == V(ds) && V(Swapped(ds)) == U(ds)
  {
    var sw := Swapped(ds);
    assert Denominator(sw) == Denominator(ds);
    assert sw.d11 * sw.d02 - sw.d01 * sw.d12 == ds.d00 * ds.d12 - ds.d01 * ds.d02;
    assert sw.d00 * sw.d12 - sw.d01 * sw.d02 == ds.d11 * ds.d02 - ds.d01 * ds.d12;
  }

  /** The stub's edge order makes no difference: it accepts exactly the points the engine accepts. */
  lemma PointInTriangleAgrees(p: Vec3, t: Triangle)
    ensures IsPointInTriangle(p, t) <==> IsPointInsideTriangle(p, t)
  {
    var ds := DotsOf(Edge0(t), Edge1(t), Sub(p, t.a));
    DotSymmetric(Edge0(t), Edge1(t));
    assert DotsOf(Edge1(t), Edge0(t), Sub(p, t.a)) == Swapped(ds);
    SwappedCoordinates(ds);
  }
}
