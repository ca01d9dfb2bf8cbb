/**
 * `intersectTriangles` and `isValidIntersection`: the crossings of each triangle with the other's plane,
 * deduplicated, reduced to their furthest pair, and accepted when both endpoints and their midpoint
 * lie inside both triangles.
 */
module TrianglePair {
  import opened Common
  import opened Geometry
  import opened Barycentric
  import opened Crossings
  import opened Dedup
  import opened Furthest

  /** The deduplication a variant applies: the 1e-6 filter, or the identity of the second variant. */
  datatype Dedupe = EpsilonFilter | NoFilter

  function Deduplicate(dd: Dedupe, ps: seq<Vec3>): seq<Vec3> {
    match dd
    case EpsilonFilter => RemoveDuplicatePoints(ps)
    case NoFilter => RemoveDuplicatePointsV2(ps)
  }

  /** Either deduplication returns points of its input only. */
  lemma DeduplicateKeepsInputPoints(dd: Dedupe, ps: seq<Vec3>)
    ensures forall x :: x in Deduplicate(dd, ps) ==> x in ps
  {
    if dd == EpsilonFilter {
      RemoveDuplicatePointsFromInput(ps);
    }
  }

  /** `isValidIntersection(pointA, pointB, t1, t2)`: the six containment checks. */
  predicate IsValidIntersection(pointA: Vec3, pointB: Vec3, t1: Triangle, t2: Triangle) {
    var midPoint := Midpoint(pointA, pointB);
    IsPointInsideTriangle(pointA, t1) && IsPointInsideTriangle(pointB, t1) &&
    IsPointInsideTriangle(pointA, t2) && IsPointInsideTriangle(pointB, t2) &&
    IsPointInsideTriangle(midPoint, t1) && IsPointInsideTriangle(midPoint, t2)
  }

  /**
   * The two midpoint checks never reject anything on their own: the accepted region is convex, so the
   * midpoint of two accepted points is accepted. The validity test holds exactly when both endpoints
   * lie inside both triangles.
   */
  lemma {:induction false} ValidIffEndpointsInside(pointA: Vec3, pointB: Vec3, t1: Triangle, t2: Triangle)
    ensures IsValidIntersection(pointA, pointB, t1, t2) <==>
              IsPointInsideTriangle(pointA, t1) && IsPointInsideTriangle(pointB, t1) &&
              IsPointInsideTriangle(pointA, t2) && IsPointInsideTriangle(pointB, t2)
  {
    if IsPointInsideTriangle(pointA, t1) && IsPointInsideTriangle(pointB, t1) &&
       IsPointInsideTriangle(pointA, t2) && IsPointInsideTriangle(pointB, t2)
    {
      MidpointInside(pointA, pointB, t1);
      MidpointInside(pointA, pointB, t2);
    }
  }

  /**
   * `intersections1.concat(intersections2)`: the crossings of `t2`'s edges with `t1`'s plane that lie
   * inside `t1`, then those of `t1`'s edges with `t2`'s plane that lie inside `t2`.
   */
  function CandidatePoints(t1: Triangle, t2: Triangle, plane1: Plane, plane2: Plane): (r: seq<Vec3>)
    ensures |r| <= 6
    ensures forall x :: x in r ==>
              (OnPlane(plane1, x) && IsPointInsideTriangle(x, t1)) || (OnPlane(plane2, x) && IsPointInsideTriangle(x, t2))
  {
    var intersections1 := Crossings.Crossings(t2, plane1, t1);
    var intersections2 := Crossings.Crossings(t1, plane2, t2);
    assert forall x :: x in intersections1 ==> OnPlane(plane1, x) && IsPointInsideTriangle(x, t1);
    assert forall x :: x in intersections2 ==> OnPlane(plane2, x) && IsPointInsideTriangle(x, t2);
    intersections1 + intersections2
  }

  /**
   * `intersectTriangles(t1, t2)` once the variant has fixed the two planes and the deduplication: null
   * with fewer than two points, null when no pair is at a positive distance, and otherwise the furthest
   * pair when it passes the validity checks.
   */
  function IntersectWithPlanes(dd: Dedupe, t1: Triangle, t2: Triangle, plane1: Plane, plane2: Plane): Option<Segment> {
    var allIntersections := Deduplicate(dd, CandidatePoints(t1, t2, plane1, plane2));
    if |allIntersections| < 2 then None
    else
      FurthestPairCorrect(allIntersections);
      match FurthestPair(allIntersections).pair
      case None => None
      case Some((i, j)) =>
        var pointA, pointB := allIntersections[i], allIntersections[j];
        if IsValidIntersection(pointA, pointB, t1, t2) then Some(Segment(pointA, pointB)) else None
  }

  /**
   * A segment that `intersectTriangles` returns has distinct endpoints, both crossing points of one
   * triangle's edges with the other's plane; both endpoints and the midpoint lie inside both triangles;
   * and no two deduplicated points are further apart than its endpoints.
   */
  lemma {:induction false} IntersectionSound(dd: Dedupe, t1: Triangle, t2: Triangle, plane1: Plane, plane2: Plane)
    ensures var r := IntersectWithPlanes(dd, t1, t2, plane1, plane2);
            r.Some? ==>
              var s := r.value;
              var pts := Deduplicate(dd, CandidatePoints(t1, t2, plane1, plane2));
              s.a != s.b &&
              s.a in CandidatePoints(t1, t2, plane1, plane2) && s.b in CandidatePoints(t1, t2, plane1, plane2) &&
              (OnPlane(plane1, s.a) || OnPlane(plane2, s.a)) && (OnPlane(plane1, s.b) || OnPlane(plane2, s.b)) &&
              IsPointInsideTriangle(s.a, t1) && IsPointInsideTriangle(s.b, t1) &&
              IsPointInsideTriangle(s.a, t2) && IsPointInsideTriangle(s.b, t2) &&
              IsPointInsideTriangle(Midpoint(s.a, s.b), t1) && IsPointInsideTriangle(Midpoint(s.a, s.b), t2) &&
              forall p, q :: ValidPair(pts, p, q) ==> DistSq(pts[p], pts[q]) <= DistSq(s.a, s.b)
  {
    var all := CandidatePoints(t1, t2, plane1, plane2);
    var pts := Deduplicate(dd, all);
    var r := IntersectWithPlanes(dd, t1, t2, plane1, plane2);
    if r.Some? {
      FurthestPairCorrect(pts);
      var (i, j) := FurthestPair(pts).pair.value;
      assert r.value == Segment(pts[i], pts[j]);
      if pts[i] == pts[j] {
        DistSqSelf(pts[i]);
        assert false;
      }
      DeduplicateKeepsInputPoints(dd, all);
      assert pts[i] in pts && pts[j] in pts;
    }
  }

  /** No segment comes out of fewer than two points, or of points that all coincide. */
  lemma NoSegmentWithoutDistinctPoints(dd: Dedupe, t1: Triangle, t2: Triangle, plane1: Plane, plane2: Plane)
    requires var pts := Deduplicate(dd, CandidatePoints(t1, t2, plane1, plane2));
             forall p, q :: ValidPair(pts, p, q) ==> DistSq(pts[p], pts[q]) == 0.0
    ensures IntersectWithPlanes(dd, t1, t2, plane1, plane2) == None
  {
    var pts := Deduplicate(dd, CandidatePoints(t1, t2, plane1, plane2));
    FurthestPairCorrect(pts);
  }

  /**
   * With a degenerate first triangle whose plane has a zero normal, only the second triangle's plane can
   * contribute points, and each of them must lie inside the degenerate triangle, which accepts nothing:
   * no segment comes out.
   */
  lemma DegenerateTriangleGivesNothing(dd: Dedupe, t1: Triangle, t2: Triangle, plane2: Plane)
    requires Cross(Edge0(t1), Edge1(t1)) == Origin
    ensures IntersectWithPlanes(dd, t1, t2, Plane(Origin, 0.0), plane2) == None
  {
    var plane1 := Plane(Origin, 0.0);
    DegeneratePlaneHasNoCrossings(t2, t1);
    var all := CandidatePoints(t1, t2, plane1, plane2);
    var pts := Deduplicate(dd, all);
    var r := IntersectWithPlanes(dd, t1, t2, plane1, plane2);
    if r.Some? {
      IntersectionSound(dd, t1, t2, plane1, plane2);
      DegenerateRejects(r.value.a, t1);
      assert false;
    }
  }
}
