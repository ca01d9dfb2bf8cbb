/**
 * The stub `Interceptor` class: its `intersect` has its whole body commented out, and its private
 * `isPointInTriangle` is the barycentric test with the edge basis in the other order.
 */
module Interceptor {
  import opened Geometry
  import opened Barycentric

  /** `intersect(poly1, poly2)`: whatever the two triangle lists, the result array stays empty. */
  function Intersect(poly1: seq<seq<Vec3>>, poly2: seq<seq<Vec3>>): (resultTriangles: seq<seq<Vec3>>)
    ensures |resultTriangles| == 0
  {
    []
  }

  /** `isPointInTriangle` accepts each vertex of a non-degenerate triangle. */
  lemma InTriangleAcceptsVertices(t: Triangle)
    requires TriangleDenominator(t) != 0.0
    ensures IsPointInTriangle(t.a, t) && IsPointInTriangle(t.b, t) && IsPointInTriangle(t.c, t)
  {
    VerticesInside(t);
    PointInTriangleAgrees(t.a, t);
    PointInTriangleAgrees(t.b, t);
    PointInTriangleAgrees(t.c, t);
  }

  /** `isPointInTriangle` rejects every point when `dot00 * dot11 - dot01 * dot01` is zero. */
  lemma InTriangleDegenerateRejects(p: Vec3, t: Triangle)
    requires TriangleDenominator(t) == 0.0
    ensures !IsPointInTriangle(p, t)
  {
    DenominatorOfPoint(p, t);
    PointInTriangleAgrees(p, t);
  }

  /**
   * For a non-degenerate triangle, `isPointInTriangle` accepts the point `a + u (b - a) + v (c - a)`
   * exactly when `u >= 0`, `v >= 0` and `u + v <= 1`.
   */
  lemma InTriangleIffInSimplex(t: Triangle, u: real, v: real)
    requires TriangleDenominator(t) != 0.0
    ensures IsPointInTriangle(PointAt(t, u, v), t) <==> u >= 0.0 && v >= 0.0 && u + v <= 1.0
  {
    InsideIffInSimplex(t, u, v);
    PointInTriangleAgrees(PointAt(t, u, v), t);
  }
}
