/**
 * `LineSegmentProcessor`: the anchor point for an annotation of a set of intersection lines. It is the
 * centre of the endpoints' bounding box when that centre lies on a segment, and otherwise the nearest
 * clamped projection of the centre onto a segment.
 */
module Centroid {
  import opened Common
  import opened Geometry
  import opened Boxes

  /** The tolerance of `vec3.len(crossProduct) < 1e-6`; lengths are compared through their squares. */
  const Tolerance: real := 0.000001

  /** `isPointOnLineSegment(point, a, b)`: nearly collinear with `ab`, and between the two perpendicular planes at `a` and `b`. */
  predicate IsPointOnLineSegment(point: Vec3, a: Vec3, b: Vec3) {
    var ab := Sub(b, a);
    var ap := Sub(point, a);
    var bp := Sub(point, b);
    var crossProduct := Cross(ap, ab);
    Dot(crossProduct, crossProduct) < Tolerance * Tolerance && Dot(ap, ab) >= 0.0 && Dot(bp, ab) <= 0.0
  }

  /** `dot(ab, ab)`, the squared length of the segment. */
  function LengthSq(a: Vec3, b: Vec3): real {
    Dot(Sub(b, a), Sub(b, a))
  }

  /** The projection parameter `proj = dot(ap, ab) / dot(ab, ab)`. */
  function Proj(point: Vec3, a: Vec3, b: Vec3): real
    requires LengthSq(a, b) != 0.0
  {
    Dot(Sub(point, a), Sub(b, a)) / LengthSq(a, b)
  }

  /**
   * `closestPointOnLineSegment(point, a, b)`: `a` when `proj <= 0`, `b` when `proj >= 1`, and
   * `a + ab * proj` in between. When `dot(ab, ab)` is zero the source computes `0 / 0`, a NaN that fails
   * both tests and yields a NaN point, whose distance compares false with everything; the model
   * returns `None` there.
   */
  function ClosestPointOnLineSegment(point: Vec3, a: Vec3, b: Vec3): (r: Option<Vec3>)
    ensures a == b ==> r.None?
  {
    if LengthSq(a, b) == 0.0 then None
    else
      var proj := Proj(point, a, b);
      if proj <= 0.0 then Some(a)
      else if proj >= 1.0 then Some(b)
      else Some(Add(a, Scale(Sub(b, a), proj)))
  }

  function Clamp(s: real): (c: real)
    ensures 0.0 <= c <= 1.0
  {
    if s <= 0.0 then 0.0 else if s >= 1.0 then 1.0 else s
  }

  // ---------------------------------------------------------------------------------------------------
  // Scalar and vector facts.

  lemma LengthSqPositive(a: Vec3, b: Vec3)
    requires LengthSq(a, b) != 0.0
    ensures LengthSq(a, b) > 0.0
  {
    var w := Sub(b, a);
    SquareNonNegative(w.x);
    SquareNonNegative(w.y);
    SquareNonNegative(w.z);
  }

  lemma SquareExpand(u: real, w: real, t: real)
    ensures (u - w * t) * (u - w * t) == u * u - 2.0 * t * (u * w) + t * t * (w * w)
  {
  }

  /** `A - 2tB + t²C`. */
  function Quadratic(A: real, B: real, C: real, t: real): real {
    A - 2.0 * t * B + t * t * C
  }

  lemma Distribute(k: real, x: real, y: real, z: real)
    ensures k * (x + y + z) == k * x + k * y + k * z
  {
  }

  /** Along the segment the squared distance to `p` is a quadratic in the parameter. */
  lemma DistSqAlong(p: Vec3, a: Vec3, b: Vec3, t: real)
    ensures DistSq(p, Lerp(a, b, t)) == Quadratic(Dot(Sub(p, a), Sub(p, a)), Dot(Sub(p, a), Sub(b, a)), LengthSq(a, b), t)
  {
    var u, w := Sub(p, a), Sub(b, a);
    var dx, dy, dz := u.x - w.x * t, u.y - w.y * t, u.z - w.z * t;
    assert Sub(p, Lerp(a, b, t)) == Vec3(dx, dy, dz);
    SquareExpand(u.x, w.x, t);
    SquareExpand(u.y, w.y, t);
    SquareExpand(u.z, w.z, t);
    Distribute(2.0 * t, u.x * w.x, u.y * w.y, u.z * w.z);
    Distribute(t * t, w.x * w.x, w.y * w.y, w.z * w.z);
  }

  /** On `[0, 1]` the quadratic with `C > 0` is smallest at the clamped vertex `B / C`. */
  lemma ClampMinimises(A: real, B: real, C: real, t: real)
    requires C > 0.0 && 0.0 <= t <= 1.0
    ensures Quadratic(A, B, C, Clamp(B / C)) <= Quadratic(A, B, C, t)
  {
    var s := B / C;
    assert B == s * C;
    if s <= 0.0 {
      assert B <= 0.0;
      assert t * (-B) >= 0.0;
      assert t * t * C >= 0.0;
    } else if s >= 1.0 {
      assert B >= C;
      assert 2.0 * B - C * (1.0 + t) >= 0.0;
      assert (1.0 - t) * (2.0 * B - C * (1.0 + t)) >= 0.0;
    } else {
      assert (t * t * C - 2.0 * t * B) - (s * s * C - 2.0 * s * B) == C * ((t - s) * (t - s));
      SquareNonNegative(t - s);
    }
  }

  /** The three branches of `closestPointOnLineSegment` are the point at the clamped parameter. */
  lemma ClosestIsClampedLerp(point: Vec3, a: Vec3, b: Vec3)
    requires LengthSq(a, b) != 0.0
    ensures ClosestPointOnLineSegment(point, a, b) == Some(Lerp(a, b, Clamp(Proj(point, a, b))))
  {
    var proj := Proj(point, a, b);
    if proj <= 0.0 {
      assert Clamp(proj) == 0.0;
      assert Lerp(a, b, 0.0) == a;
    } else if proj >= 1.0 {
      assert Clamp(proj) == 1.0;
      assert Lerp(a, b, 1.0) == b;
    } else {
      assert Clamp(proj) == proj;
      assert ClosestPointOnLineSegment(point, a, b) == Some(Add(a, Scale(Sub(b, a), proj)));
    }
  }

  lemma DotScaled(w: Vec3, t: real)
    ensures Dot(Scale(w, t), w) == t * Dot(w, w)
  {
  }

  lemma SignOfProduct(t: real, l: real)
    requires l >= 0.0
    ensures t >= 0.0 ==> t * l >= 0.0
    ensures t <= 0.0 ==> t * l <= 0.0
  {
  }

  lemma CrossScaled(w: Vec3, t: real)
    ensures Cross(Scale(w, t), w) == Origin
  {
    assert (w.y * t) * w.z == (w.z * t) * w.y;
    assert (w.z * t) * w.x == (w.x * t) * w.z;
    assert (w.x * t) * w.y == (w.y * t) * w.x;
  }

  lemma LerpOffsets(a: Vec3, b: Vec3, t: real)
    ensures Sub(Lerp(a, b, t), a) == Scale(Sub(b, a), t)
    ensures Sub(Lerp(a, b, t), b) == Scale(Sub(b, a), t - 1.0)
  {
    var w := Sub(b, a);
    assert w.x * (t - 1.0) == w.x * t - w.x;
    assert w.y * (t - 1.0) == w.y * t - w.y;
    assert w.z * (t - 1.0) == w.z * t - w.z;
  }

  /** A point whose offset from `a` is parallel to the segment and projects into it. */
  lemma OnSegmentFromDots(point: Vec3, a: Vec3, b: Vec3)
    requires Cross(Sub(point, a), Sub(b, a)) == Origin
    requires Dot(Sub(point, a), Sub(b, a)) >= 0.0 && Dot(Sub(point, b), Sub(b, a)) <= 0.0
    ensures IsPointOnLineSegment(point, a, b)
  {
    assert Dot(Origin, Origin) == 0.0;
  }

  /** The point at any parameter in `[0, 1]` passes `isPointOnLineSegment`. */
  lemma LerpIsOnSegment(a: Vec3, b: Vec3, t: real)
    requires 0.0 <= t <= 1.0
    ensures IsPointOnLineSegment(Lerp(a, b, t), a, b)
  {
    var w := Sub(b, a);
    var p := Lerp(a, b, t);
    LerpOffsets(a, b, t);
    CrossScaled(w, t);
    SumOfSquares(w.x, w.y, w.z);
    DotScaled(w, t);
    DotScaled(w, t - 1.0);
    SignOfProduct(t, Dot(w, w));
    SignOfProduct(t - 1.0, Dot(w, w));
    OnSegmentFromDots(p, a, b);
  }

  /**
   * `closestPointOnLineSegment` of a proper segment lies on it, and no point of the segment is closer
   * to `point`.
   */
  lemma ClosestIsClosest(point: Vec3, a: Vec3, b: Vec3, t: real)
    requires LengthSq(a, b) != 0.0 && 0.0 <= t <= 1.0
    ensures IsPointOnLineSegment(ClosestPointOnLineSegment(point, a, b).value, a, b)
    ensures DistSq(point, ClosestPointOnLineSegment(point, a, b).value) <= DistSq(point, Lerp(a, b, t))
  {
    var A, B, C := Dot(Sub(point, a), Sub(point, a)), Dot(Sub(point, a), Sub(b, a)), LengthSq(a, b);
    LengthSqPositive(a, b);
    var c := Clamp(Proj(point, a, b));
    ClosestIsClampedLerp(point, a, b);
    LerpIsOnSegment(a, b, c);
    DistSqAlong(point, a, b, c);
    DistSqAlong(point, a, b, t);
    ClampMinimises(A, B, C, t);
  }

  /** Conversely, a point that passes `isPointOnLineSegment` projects into `[0, 1]` of a proper segment. */
  lemma OnSegmentProjectsInside(point: Vec3, a: Vec3, b: Vec3)
    requires LengthSq(a, b) != 0.0 && IsPointOnLineSegment(point, a, b)
    ensures 0.0 <= Proj(point, a, b) <= 1.0
  {
    var u, w := Sub(point, a), Sub(b, a);
    assert Sub(point, b) == Sub(u, w);
    assert Dot(Sub(u, w), w) == Dot(u, w) - Dot(w, w);
    LengthSqPositive(a, b);
    UnitRatio(Dot(u, w), Dot(w, w));
  }

  lemma UnitRatio(B: real, C: real)
    requires C > 0.0 && 0.0 <= B <= C
    ensures 0.0 <= B / C <= 1.0
  {
    var s := B / C;
    assert B == s * C;
  }

  /** A zero-length segment accepts every point: its cross and dot products all vanish. */
  lemma ZeroLengthAcceptsAll(point: Vec3, a: Vec3)
    ensures IsPointOnLineSegment(point, a, a)
  {
  }

  // ---------------------------------------------------------------------------------------------------
  // The anchor.

  /**
   * The box after the first `n` lines of the `forEach`: `box3.make(box, a, a)` for the first line, then
   * `addPoint` of every later `a` and of every `b`.
   */
  function EndpointBox(lines: seq<Segment>, n: nat): Box3
    requires 1 <= n <= |lines|
  {
    if n == 1 then AddPoint(PointBox(lines[0].a), lines[0].b)
    else AddPoint(AddPoint(EndpointBox(lines, n - 1), lines[n - 1].a), lines[n - 1].b)
  }

  /** The box holds every endpoint of the first `n` lines, and lies inside any box that does. */
  lemma {:induction false} EndpointBoxIsTight(lines: seq<Segment>, n: nat, c: Box3)
    requires 1 <= n <= |lines|
    ensures forall k :: 0 <= k < n ==> ContainsPoint(EndpointBox(lines, n), lines[k].a) &&
                                       ContainsPoint(EndpointBox(lines, n), lines[k].b)
    ensures (forall k :: 0 <= k < n ==> ContainsPoint(c, lines[k].a) && ContainsPoint(c, lines[k].b)) ==>
              ContainsBox(c, EndpointBox(lines, n))
  {
    if n > 1 {
      EndpointBoxIsTight(lines, n - 1, c);
      var prev := EndpointBox(lines, n - 1);
      var mid := AddPoint(prev, lines[n - 1].a);
      forall k | 0 <= k < n
        ensures ContainsPoint(EndpointBox(lines, n), lines[k].a) && ContainsPoint(EndpointBox(lines, n), lines[k].b)
      {
        if k < n - 1 {
          ContainsPointMonotone(mid, prev, lines[k].a);
          ContainsPointMonotone(mid, prev, lines[k].b);
          ContainsPointMonotone(EndpointBox(lines, n), mid, lines[k].a);
          ContainsPointMonotone(EndpointBox(lines, n), mid, lines[k].b);
        } else {
          ContainsPointMonotone(EndpointBox(lines, n), mid, lines[k].a);
        }
      }
    }
  }

  predicate CenterOnSomeSegment(center: Vec3, lines: seq<Segment>) {
    exists k :: 0 <= k < |lines| && IsPointOnLineSegment(center, lines[k].a, lines[k].b)
  }

  /** `nearestPoint` and `minDistance` (squared) of the fallback `forEach`. */
  datatype Nearest = Nearest(point: Vec3, dist: real)

  /** The fallback after its first `n` lines: a closest point replaces the best only when strictly nearer. */
  function NearestUpTo(center: Vec3, lines: seq<Segment>, n: nat): Nearest
    requires 1 <= |lines| && n <= |lines|
  {
    if n == 0 then Nearest(lines[0].a, DistSq(center, lines[0].a))
    else
      var prev := NearestUpTo(center, lines, n - 1);
      var closest := ClosestPointOnLineSegment(center, lines[n - 1].a, lines[n - 1].b);
      if closest.Some? && DistSq(center, closest.value) < prev.dist then Nearest(closest.value, DistSq(center, closest.value))
      else prev
  }

  /** `findCenterOrNearestPoint()` on the processor's lines. */
  function CenterOrNearest(lines: seq<Segment>): Result<Vec3> {
    if |lines| == 0 then Err(NoLinesProvided)
    else
      var center := Center(EndpointBox(lines, |lines|));
      if CenterOnSomeSegment(center, lines) then Ok(center)
      else Ok(NearestUpTo(center, lines, |lines|).point)
  }

  /**
   * The fallback keeps its distance exact, is no further than `lines[0].a` nor than any closest point
   * it has seen, and its point is `lines[0].a` or one of those closest points.
   */
  lemma {:induction false} NearestUpToIsMinimal(center: Vec3, lines: seq<Segment>, n: nat)
    requires 1 <= |lines| && n <= |lines|
    ensures var r := NearestUpTo(center, lines, n);
            r.dist == DistSq(center, r.point) && r.dist <= DistSq(center, lines[0].a) &&
            (forall k :: 0 <= k < n && LengthSq(lines[k].a, lines[k].b) != 0.0 ==>
               r.dist <= DistSq(center, ClosestPointOnLineSegment(center, lines[k].a, lines[k].b).value)) &&
            (r.point == lines[0].a ||
             exists k :: 0 <= k < n && ClosestPointOnLineSegment(center, lines[k].a, lines[k].b) == Some(r.point))
  {
    if n > 0 {
      NearestUpToIsMinimal(center, lines, n - 1);
      var prev := NearestUpTo(center, lines, n - 1);
      var r := NearestUpTo(center, lines, n);
      var closest := ClosestPointOnLineSegment(center, lines[n - 1].a, lines[n - 1].b);
      if r != prev {
        assert ClosestPointOnLineSegment(center, lines[n - 1].a, lines[n - 1].b) == Some(r.point);
      } else if r.point != lines[0].a {
        var k :| 0 <= k < n - 1 && ClosestPointOnLineSegment(center, lines[k].a, lines[k].b) == Some(r.point);
        assert 0 <= k < n;
      }
    }
  }

  /** An empty list throws; any other list gets an anchor. */
  lemma CenterOrNearestErrIff(lines: seq<Segment>)
    ensures CenterOrNearest(lines).Err? <==> |lines| == 0
    ensures CenterOrNearest(lines).Err? ==> CenterOrNearest(lines).error == NoLinesProvided
  {
  }

  /** The centre is the midpoint of the smallest box holding every endpoint; when a segment accepts it, it is the anchor. */
  lemma CenterChosenWhenOnSegment(lines: seq<Segment>, c: Box3)
    requires |lines| > 0
    ensures var box := EndpointBox(lines, |lines|);
            (forall k :: 0 <= k < |lines| ==> ContainsPoint(box, lines[k].a) && ContainsPoint(box, lines[k].b)) &&
            ((forall k :: 0 <= k < |lines| ==> ContainsPoint(c, lines[k].a) && ContainsPoint(c, lines[k].b)) ==>
               ContainsBox(c, box)) &&
            ContainsPoint(box, Center(box)) &&
            (CenterOnSomeSegment(Center(box), lines) ==> CenterOrNearest(lines) == Ok(Center(box)))
  {
    EndpointBoxIsTight(lines, |lines|, c);
    var box := EndpointBox(lines, |lines|);
    assert ContainsPoint(box, lines[0].a);
  }

  /**
   * Otherwise the anchor is at least as near to the centre as every point of every segment of positive
   * length. (A zero-length segment would have accepted the centre.)
   */
  lemma FallbackIsNearest(lines: seq<Segment>, k: int, t: real)
    requires |lines| > 0
    requires !CenterOnSomeSegment(Center(EndpointBox(lines, |lines|)), lines)
    requires 0 <= k < |lines| && LengthSq(lines[k].a, lines[k].b) != 0.0 && 0.0 <= t <= 1.0
    ensures var center := Center(EndpointBox(lines, |lines|));
            DistSq(center, CenterOrNearest(lines).value) <= DistSq(center, Lerp(lines[k].a, lines[k].b, t))
  {
    var center := Center(EndpointBox(lines, |lines|));
    NearestUpToIsMinimal(center, lines, |lines|);
    ClosestIsClosest(center, lines[k].a, lines[k].b, t);
  }

  /** Whichever way it is found, the anchor passes `isPointOnLineSegment` for some segment. */
  lemma AnchorIsOnSomeSegment(lines: seq<Segment>)
    requires |lines| > 0
    ensures CenterOnSomeSegment(CenterOrNearest(lines).value, lines)
  {
    var center := Center(EndpointBox(lines, |lines|));
    if !CenterOnSomeSegment(center, lines) {
      NearestUpToIsMinimal(center, lines, |lines|);
      var r := NearestUpTo(center, lines, |lines|).point;
      if r == lines[0].a {
        LerpIsOnSegment(lines[0].a, lines[0].b, 0.0);
        assert Lerp(lines[0].a, lines[0].b, 0.0) == lines[0].a;
      } else {
        var k :| 0 <= k < |lines| && ClosestPointOnLineSegment(center, lines[k].a, lines[k].b) == Some(r);
        ClosestIsClosest(center, lines[k].a, lines[k].b, 0.0);
      }
    }
  }

  /** A single segment is anchored at its midpoint, the centre of the box around its two endpoints. */
  lemma SingleSegmentAnchorsAtMidpoint(a: Vec3, b: Vec3)
    ensures CenterOrNearest([Segment(a, b)]) == Ok(Lerp(a, b, 0.5))
  {
    var lines := [Segment(a, b)];
    var box := EndpointBox(lines, 1);
    assert Center(box) == Lerp(a, b, 0.5) by {
      MidOfMinMax(a.x, b.x);
      MidOfMinMax(a.y, b.y);
      MidOfMinMax(a.z, b.z);
    }
    LerpIsOnSegment(a, b, 0.5);
    assert CenterOnSomeSegment(Center(box), lines) by {
      assert IsPointOnLineSegment(Center(box), lines[0].a, lines[0].b);
    }
    CenterChosenWhenOnSegment(lines, box);
  }

  lemma MidOfMinMax(u: real, v: real)
    ensures (Min(u, v) + Max(u, v)) * 0.5 == u + (v - u) * 0.5
  {
  }

  /** The processor, holding the lines it was constructed with. */
  class LineSegmentProcessor {
    const intersectionLines: seq<Segment>

    constructor(intersectionLines: seq<Segment>)
      ensures this.intersectionLines == intersectionLines
    {
      this.intersectionLines := intersectionLines;
    }

    /** `findCenterOrNearestPoint()`: the box loop, the early-return scan for the centre, and the fallback. */
    method FindCenterOrNearestPoint() returns (r: Result<Vec3>)
      ensures r == CenterOrNearest(intersectionLines)
    {
      var lines := intersectionLines;
      if |lines| == 0 {
        return Err(NoLinesProvided);
      }
      var box := ZeroBox;
      var firstPoint := true;
      var i := 0;
      while i < |lines|
        invariant 0 <= i <= |lines|
        invariant firstPoint <==> i == 0
        invariant i >= 1 ==> box == EndpointBox(lines, i)
      {
        var line := lines[i];
        if firstPoint {
          box := PointBox(line.a);
          firstPoint := false;
        } else {
          box := AddPoint(box, line.a);
        }
        box := AddPoint(box, line.b);
        i := i + 1;
      }
      var center := Center(box);
      i := 0;
      while i < |lines|
        invariant 0 <= i <= |lines|
        invariant forall k :: 0 <= k < i ==> !IsPointOnLineSegment(center, lines[k].a, lines[k].b)
      {
        if IsPointOnLineSegment(center, lines[i].a, lines[i].b) {
          return Ok(center);
        }
        i := i + 1;
      }
      var nearestPoint := lines[0].a;
      var minDistance := DistSq(center, nearestPoint);
      i := 0;
      while i < |lines|
        invariant 0 <= i <= |lines|
        invariant NearestUpTo(center, lines, i) == Nearest(nearestPoint, minDistance)
      {
        var closest := ClosestPointOnLineSegment(center, lines[i].a, lines[i].b);
        if closest.Some? {
          var distance := DistSq(center, closest.value);
          if distance < minDistance {
            minDistance := distance;
            nearestPoint := closest.value;
          }
        }
        i := i + 1;
      }
      r := Ok(nearestPoint);
    }
  }
}
