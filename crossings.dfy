/**
 * Edge–plane crossings (`getIntersections`) and the plane of a triangle (`getPlaneFromTriangle`).
 */
module Crossings {
  import opened Common
  import opened Geometry
  import opened Barycentric

  /** `triangle[i]` for `i` in `0 .. 2`. */
  function Vertex(t: Triangle, i: int): Vec3
    requires 0 <= i < 3
  {
    if i == 0 then t.a else if i == 1 then t.b else t.c
  }

  predicate OnPlane(pl: Plane, p: Vec3) {
    SignedDistance(pl, p) == 0.0
  }

  /** A strictly negative product means strictly opposite signs, so in particular `da != db`. */
  lemma OppositeSigns(da: real, db: real)
    requires da * db < 0.0
    ensures (da < 0.0 && db > 0.0) || (da > 0.0 && db < 0.0)
  {
  }

  /**
   * The crossing of the edge `a → b` with the plane: when `da * db < 0` the point `a + t (b - a)` with
   * `t = da / (da - db)`, and no point otherwise (an edge that only touches the plane, lies in it or
   * stays on one side produces nothing).
   */
  function EdgeCrossing(pl: Plane, a: Vec3, b: Vec3): Option<Vec3> {
    var da := SignedDistance(pl, a);
    var db := SignedDistance(pl, b);
    if da * db < 0.0 then
      OppositeSigns(da, db);
      Some(Lerp(a, b, da / (da - db)))
    else None
  }

  /** The edge parameter `t = da / (da - db)`. */
  function CrossingParameter(pl: Plane, a: Vec3, b: Vec3): real
    requires SignedDistance(pl, a) != SignedDistance(pl, b)
  {
    SignedDistance(pl, a) / (SignedDistance(pl, a) - SignedDistance(pl, b))
  }

  lemma SignedDistanceOfLerp(pl: Plane, a: Vec3, b: Vec3, t: real)
    ensures SignedDistance(pl, Lerp(a, b, t))
            == SignedDistance(pl, a) + t * (SignedDistance(pl, b) - SignedDistance(pl, a))
  {
  }

  lemma RatioBetween(da: real, db: real)
    requires (da < 0.0 && db > 0.0) || (da > 0.0 && db < 0.0)
    ensures 0.0 < da / (da - db) < 1.0
    ensures da + (da / (da - db)) * (db - da) == 0.0
  {
    var r := da / (da - db);
    assert r * (da - db) == da;
  }

  /**
   * An edge whose endpoints lie strictly on opposite sides of the plane crosses it at the parameter
   * `t ∈ (0, 1)`, strictly between its endpoints, and the crossing point lies on the plane.
   */
  lemma {:induction false} EdgeCrossingOnPlane(pl: Plane, a: Vec3, b: Vec3)
    ensures EdgeCrossing(pl, a, b).Some? <==> SignedDistance(pl, a) * SignedDistance(pl, b) < 0.0
    ensures EdgeCrossing(pl, a, b).Some? ==>
              SignedDistance(pl, a) != SignedDistance(pl, b) &&
              0.0 < CrossingParameter(pl, a, b) < 1.0 &&
              EdgeCrossing(pl, a, b).value == Lerp(a, b, CrossingParameter(pl, a, b)) &&
              OnPlane(pl, EdgeCrossing(pl, a, b).value)
  {
    var da, db := SignedDistance(pl, a), SignedDistance(pl, b);
    if da * db < 0.0 {
      OppositeSigns(da, db);
      RatioBetween(da, db);
      SignedDistanceOfLerp(pl, a, b, CrossingParameter(pl, a, b));
    }
  }

  /** What edge `i → (i + 1) % 3` of `triangle` contributes: its crossing, if inside `other`. */
  function EdgePoints(triangle: Triangle, pl: Plane, other: Triangle, i: int): seq<Vec3>
    requires 0 <= i < 3
  {
    match EdgeCrossing(pl, Vertex(triangle, i), Vertex(triangle, (i + 1) % 3))
    case Some(p) => if IsPointInsideTriangle(p, other) then [p] else []
    case None => []
  }

  /**
   * The points the first `n` edges contribute. Each is a crossing point of the plane that lies inside
   * `other`, and each edge contributes at most one.
   */
  function CrossingsUpTo(triangle: Triangle, pl: Plane, other: Triangle, n: int): (r: seq<Vec3>)
    requires 0 <= n <= 3
    ensures |r| <= n
    ensures forall k :: 0 <= k < |r| ==> OnPlane(pl, r[k]) && IsPointInsideTriangle(r[k], other)
  {
    if n == 0 then []
    else
      EdgeCrossingOnPlane(pl, Vertex(triangle, n - 1), Vertex(triangle, n % 3));
      CrossingsUpTo(triangle, pl, other, n - 1) + EdgePoints(triangle, pl, other, n - 1)
  }

  /** `getIntersections(triangle, plane, otherTriangle)`: at most three points, on the plane, inside `other`. */
  function Crossings(triangle: Triangle, pl: Plane, other: Triangle): (r: seq<Vec3>)
    ensures |r| <= 3
    ensures forall k :: 0 <= k < |r| ==> OnPlane(pl, r[k]) && IsPointInsideTriangle(r[k], other)
  {
    CrossingsUpTo(triangle, pl, other, 3)
  }

  /** `getIntersections`: the edge loop, pushing each accepted crossing. */
  method GetIntersections(triangle: Triangle, plane: Plane, otherTriangle: Triangle)
    returns (intersections: seq<Vec3>)
    ensures intersections == Crossings(triangle, plane, otherTriangle)
  {
    intersections := [];
    var i := 0;
    while i < 3
      invariant 0 <= i <= 3
      invariant intersections == CrossingsUpTo(triangle, plane, otherTriangle, i)
    {
      var a := Vertex(triangle, i);
      var b := Vertex(triangle, (i + 1) % 3);
      var da := Dot(plane.normal, a) + plane.d;
      var db := Dot(plane.normal, b) + plane.d;
      if da * db < 0.0 {
        OppositeSigns(da, db);
        var t := da / (da - db);
        var dir := Scale(Sub(b, a), t);
        var point := Add(a, dir);
        if IsPointInsideTriangle(point, otherTriangle) {
          intersections := intersections + [point];
        }
      }
      i := i + 1;
    }
  }

  // ---------------------------------------------------------------------------------------------------
  // Rescaling the plane.

  /** The plane `(k n, k d)`: the same plane with its equation multiplied by `k`. */
  function ScaledPlane(pl: Plane, k: real): Plane {
    Plane(Scale(pl.normal, k), pl.d * k)
  }

  lemma SignedDistanceScaled(pl: Plane, k: real, p: Vec3)
    ensures SignedDistance(ScaledPlane(pl, k), p) == k * SignedDistance(pl, p)
  {
  }

  lemma ScaledSigns(k: real, da: real, db: real, da2: real, db2: real)
    requires k > 0.0 && da2 == k * da && db2 == k * db
    ensures da2 * db2 < 0.0 <==> da * db < 0.0
    ensures da * db < 0.0 ==> da - db != 0.0 && da2 - db2 != 0.0 && da2 / (da2 - db2) == da / (da - db)
  {
    assert da2 * db2 == (k * k) * (da * db);
    assert k * k > 0.0;
    if da * db < 0.0 {
      OppositeSigns(da, db);
      assert da2 - db2 == k * (da - db);
    }
  }

  /** Multiplying the plane equation by a positive factor leaves every edge crossing unchanged. */
  lemma {:induction false} EdgeCrossingScaleInvariant(pl: Plane, k: real, a: Vec3, b: Vec3)
    requires k > 0.0
    ensures EdgeCrossing(ScaledPlane(pl, k), a, b) == EdgeCrossing(pl, a, b)
  {
    var da, db := SignedDistance(pl, a), SignedDistance(pl, b);
    var da2, db2 := SignedDistance(ScaledPlane(pl, k), a), SignedDistance(ScaledPlane(pl, k), b);
    SignedDistanceScaled(pl, k, a);
    SignedDistanceScaled(pl, k, b);
    ScaledSigns(k, da, db, da2, db2);
  }

  /**
   * `getPlaneFromTriangle` normalises the normal, that is, it scales `(n, d)` by `1 / |n|`; since
   * that factor is positive, the crossings it yields are those of the unnormalised plane.
   */
  lemma {:induction false} CrossingsScaleInvariant(triangle: Triangle, pl: Plane, other: Triangle, k: real)
    requires k > 0.0
    ensures Crossings(triangle, ScaledPlane(pl, k), other) == Crossings(triangle, pl, other)
  {
    forall i | 0 <= i < 3
      ensures EdgePoints(triangle, ScaledPlane(pl, k), other, i) == EdgePoints(triangle, pl, other, i)
    {
      EdgeCrossingScaleInvariant(pl, k, Vertex(triangle, i), Vertex(triangle, (i + 1) % 3));
    }
    CrossingsAgree(triangle, ScaledPlane(pl, k), pl, other, 3);
  }

  /** Two planes that give every edge the same contribution give the same crossings. */
  lemma {:induction false} CrossingsAgree(triangle: Triangle, pl1: Plane, pl2: Plane, other: Triangle, n: int)
    requires 0 <= n <= 3
    requires forall i :: 0 <= i < n ==> EdgePoints(triangle, pl1, other, i) == EdgePoints(triangle, pl2, other, i)
    ensures CrossingsUpTo(triangle, pl1, other, n) == CrossingsUpTo(triangle, pl2, other, n)
  {
    if n > 0 {
      CrossingsAgree(triangle, pl1, pl2, other, n - 1);
    }
  }

  /**
   * `getPlaneFromTriangle(t)` of the second and third variants without the normalisation:
   * normal `(t1 - t0) × (t2 - t0)` and `d = -normal · t0`.
   */
  function PlaneFromTriangle(t: Triangle): Plane {
    var normal := Cross(Sub(t.b, t.a), Sub(t.c, t.a));
    Plane(normal, -Dot(normal, t.a))
  }

  /** The normalised plane the source builds, for a positive normalisation factor `k = 1 / |n|`. */
  function NormalizedPlaneFromTriangle(t: Triangle, k: real): Plane {
    var normal := Scale(Cross(Sub(t.b, t.a), Sub(t.c, t.a)), k);
    Plane(normal, -Dot(normal, t.a))
  }

  lemma NormalizedIsScaled(t: Triangle, k: real)
    ensures NormalizedPlaneFromTriangle(t, k) == ScaledPlane(PlaneFromTriangle(t), k)
  {
  }

  lemma TripleProductZero(u: Vec3, v: Vec3)
    ensures Dot(Cross(u, v), u) == 0.0 && Dot(Cross(u, v), v) == 0.0
  {
  }

  /** The plane of a triangle passes through its three vertices. */
  lemma {:induction false} PlaneContainsVertices(t: Triangle)
    ensures OnPlane(PlaneFromTriangle(t), t.a)
    ensures OnPlane(PlaneFromTriangle(t), t.b)
    ensures OnPlane(PlaneFromTriangle(t), t.c)
  {
    var e0, e1 := Sub(t.b, t.a), Sub(t.c, t.a);
    var n := Cross(e0, e1);
    TripleProductZero(e0, e1);
    DotSub(n, t.b, t.a);
    DotSub(n, t.c, t.a);
  }

  lemma DotSub(n: Vec3, p: Vec3, q: Vec3)
    ensures Dot(n, p) == Dot(n, Sub(p, q)) + Dot(n, q)
  {
  }

  /** A plane with a zero normal (a degenerate triangle) produces no crossing: every `da * db` is 0. */
  lemma DegeneratePlaneHasNoCrossings(triangle: Triangle, other: Triangle)
    ensures Crossings(triangle, Plane(Origin, 0.0), other) == []
  {
    forall i | 0 <= i < 3
      ensures EdgePoints(triangle, Plane(Origin, 0.0), other, i) == []
    {
      var a, b := Vertex(triangle, i), Vertex(triangle, (i + 1) % 3);
      assert SignedDistance(Plane(Origin, 0.0), a) == 0.0;
    }
    assert CrossingsUpTo(triangle, Plane(Origin, 0.0), other, 1) == [];
    assert CrossingsUpTo(triangle, Plane(Origin, 0.0), other, 2) == [];
  }
}
