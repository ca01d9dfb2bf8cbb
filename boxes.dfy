/**
 * Axis-aligned boxes: the strict overlap test `computeIntersectionBox` and the componentwise operations
 * the source takes from `Math3d.box3` (`addBox`, `make`, `addPoint`, `center`).
 */
module Boxes {
  import opened Common
  import opened Geometry

  function Max(a: real, b: real): real { if a >= b then a else b }

  function Min(a: real, b: real): real { if a <= b then a else b }

  /** Every point of `inner` is a point of `outer`. */
  predicate ContainsBox(outer: Box3, inner: Box3) {
    outer.lo.x <= inner.lo.x && outer.lo.y <= inner.lo.y && outer.lo.z <= inner.lo.z &&
    inner.hi.x <= outer.hi.x && inner.hi.y <= outer.hi.y && inner.hi.z <= outer.hi.z
  }

  predicate ContainsPoint(b: Box3, p: Vec3) {
    b.lo.x <= p.x <= b.hi.x && b.lo.y <= p.y <= b.hi.y && b.lo.z <= p.z <= b.hi.z
  }

  /** `min < max` on all three axes: the box has an interior. */
  predicate HasVolume(b: Box3) {
    b.lo.x < b.hi.x && b.lo.y < b.hi.y && b.lo.z < b.hi.z
  }

  /**
   * `computeIntersectionBox(box1, box2)`: the componentwise maximum of the minima and minimum of the
   * maxima, returned only when it is strictly ordered on every axis, `undefined` otherwise. The three
   * engine variants use the same rule.
   */
  function ComputeIntersectionBox(box1: Box3, box2: Box3): (r: Option<Box3>)
    ensures r.Some? ==> ContainsBox(box1, r.value) && ContainsBox(box2, r.value) && HasVolume(r.value)
  {
    var lo := Vec3(Max(box1.lo.x, box2.lo.x), Max(box1.lo.y, box2.lo.y), Max(box1.lo.z, box2.lo.z));
    var hi := Vec3(Min(box1.hi.x, box2.hi.x), Min(box1.hi.y, box2.hi.y), Min(box1.hi.z, box2.hi.z));
    if lo.x < hi.x && lo.y < hi.y && lo.z < hi.z then Some(Box3(lo, hi)) else None
  }

  /**
   * The overlap is the largest common box: any box with an interior that lies in both inputs makes the
   * overlap exist and lies inside it. With the contract above, the overlap exists exactly when the two
   * boxes share a box with an interior.
   */
  lemma OverlapIsGreatest(box1: Box3, box2: Box3, c: Box3)
    requires HasVolume(c) && ContainsBox(box1, c) && ContainsBox(box2, c)
    ensures ComputeIntersectionBox(box1, box2).Some?
    ensures ContainsBox(ComputeIntersectionBox(box1, box2).value, c)
  {
  }

  /** Boxes that only touch (or are apart) on some axis have no overlap. */
  lemma TouchingBoxesDoNotOverlap(box1: Box3, box2: Box3)
    requires box1.hi.x <= box2.lo.x || box1.hi.y <= box2.lo.y || box1.hi.z <= box2.lo.z
    ensures ComputeIntersectionBox(box1, box2) == None
    ensures ComputeIntersectionBox(box2, box1) == None
  {
  }

  lemma OverlapCommutes(box1: Box3, box2: Box3)
    ensures ComputeIntersectionBox(box1, box2) == ComputeIntersectionBox(box2, box1)
  {
  }

  /**
   * The placeholder `[0, 0, 0, 0, 0, 0]` never overlaps anything: its minimum is not below its maximum,
   * whichever box it meets.
   */
  lemma ZeroBoxNeverOverlaps(b: Box3)
    ensures ComputeIntersectionBox(ZeroBox, b) == None
    ensures ComputeIntersectionBox(b, ZeroBox) == None
  {
  }

  /** `box3.addBox`: the smallest box holding both arguments. */
  function Union(b1: Box3, b2: Box3): (r: Box3)
    ensures ContainsBox(r, b1) && ContainsBox(r, b2)
  {
    Box3(Vec3(Min(b1.lo.x, b2.lo.x), Min(b1.lo.y, b2.lo.y), Min(b1.lo.z, b2.lo.z)),
         Vec3(Max(b1.hi.x, b2.hi.x), Max(b1.hi.y, b2.hi.y), Max(b1.hi.z, b2.hi.z)))
  }

  lemma UnionIsLeast(b1: Box3, b2: Box3, c: Box3)
    requires ContainsBox(c, b1) && ContainsBox(c, b2)
    ensures ContainsBox(c, Union(b1, b2))
  {
  }

  lemma ContainsBoxTransitive(a: Box3, b: Box3, c: Box3)
    requires ContainsBox(a, b) && ContainsBox(b, c)
    ensures ContainsBox(a, c)
  {
  }

  /** `box3.make(box, p, p)`: the box of the single point `p`. */
  function PointBox(p: Vec3): (r: Box3)
    ensures ContainsPoint(r, p)
  {
    Box3(p, p)
  }

  /** `box3.addPoint`: grow the box just enough to hold `p`. */
  function AddPoint(b: Box3, p: Vec3): (r: Box3)
    ensures ContainsPoint(r, p) && ContainsBox(r, b)
  {
    Union(b, PointBox(p))
  }

  lemma ContainsPointMonotone(outer: Box3, inner: Box3, p: Vec3)
    requires ContainsBox(outer, inner) && ContainsPoint(inner, p)
    ensures ContainsPoint(outer, p)
  {
  }

  /** `box3.center`: the midpoint of the two corners. */
  function Center(b: Box3): (c: Vec3)
    ensures b.lo.x <= b.hi.x && b.lo.y <= b.hi.y && b.lo.z <= b.hi.z ==> ContainsPoint(b, c)
  {
    Scale(Add(b.lo, b.hi), 0.5)
  }
}
