/** Exact three-dimensional vector algebra over `real`, the value types of the intersection engine. */
module Geometry {

  /** A point or a direction (`vec3`). */
  datatype Vec3 = Vec3(x: real, y: real, z: real)

  const Origin: Vec3 := Vec3(0.0, 0.0, 0.0)

  function Add(a: Vec3, b: Vec3): Vec3 { Vec3(a.x + b.x, a.y + b.y, a.z + b.z) }

  function Sub(a: Vec3, b: Vec3): Vec3 { Vec3(a.x - b.x, a.y - b.y, a.z - b.z) }

  function Neg(a: Vec3): Vec3 { Vec3(-a.x, -a.y, -a.z) }

  function Scale(a: Vec3, k: real): Vec3 { Vec3(a.x * k, a.y * k, a.z * k) }

  function Dot(a: Vec3, b: Vec3): real { a.x * b.x + a.y * b.y + a.z * b.z }

  function Cross(a: Vec3, b: Vec3): Vec3 {
    Vec3(a.y * b.z - a.z * b.y, a.z * b.x - a.x * b.z, a.x * b.y - a.y * b.x)
  }

  /** The point `a + (b - a) * t` that `vec3.sub`, `vec3.mul` and `vec3.add` build in the source. */
  function Lerp(a: Vec3, b: Vec3, t: real): Vec3 { Add(a, Scale(Sub(b, a), t)) }

  /**
   * The squared Euclidean distance. The source only compares `vec3.distance` values with each other or
   * with a non-negative constant, and the square root is monotone, so comparing squares decides the same.
   */
  function DistSq(a: Vec3, b: Vec3): (d: real)
    ensures d >= 0.0
  {
    SumOfSquares(a.x - b.x, a.y - b.y, a.z - b.z);
    Dot(Sub(a, b), Sub(a, b))
  }

  lemma SumOfSquares(x: real, y: real, z: real)
    ensures x * x + y * y + z * z >= 0.0
  {
    SquareNonNegative(x);
    SquareNonNegative(y);
    SquareNonNegative(z);
  }

  lemma SquareNonNegative(r: real)
    ensures r * r >= 0.0
  {
    if r < 0.0 {
      assert r * r == (-r) * (-r);
    }
  }

  lemma DistSqSelf(a: Vec3)
    ensures DistSq(a, a) == 0.0
  {
  }

  lemma DistSqSymmetric(a: Vec3, b: Vec3)
    ensures DistSq(a, b) == DistSq(b, a)
  {
  }

  /** The deduplication tolerance `epsilon = 1e-6`. */
  const Epsilon: real := 0.000001

  /** `vec3.distance(p, q) < 1e-6`, stated on squares. */
  predicate Near(p: Vec3, q: Vec3) {
    DistSq(p, q) < Epsilon * Epsilon
  }

  lemma NearSymmetric(p: Vec3, q: Vec3)
    ensures Near(p, q) <==> Near(q, p)
  {
    DistSqSymmetric(p, q);
  }

  /** An axis-aligned box `[minX, minY, minZ, maxX, maxY, maxZ]` as corners `lo` and `hi`. */
  datatype Box3 = Box3(lo: Vec3, hi: Vec3)

  /** The placeholder box `[0, 0, 0, 0, 0, 0]`. */
  const ZeroBox: Box3 := Box3(Origin, Origin)

  /** Three vertices `[t0, t1, t2]`, in index order. */
  datatype Triangle = Triangle(a: Vec3, b: Vec3, c: Vec3)

  const ZeroTriangle: Triangle := Triangle(Origin, Origin, Origin)

  /** An intersection line `{a, b}`. */
  datatype Segment = Segment(a: Vec3, b: Vec3)

  /** A plane `normal . p + d = 0`; `plane3` in the source stores `[nx, ny, nz, d]`. */
  datatype Plane = Plane(normal: Vec3, d: real)

  /** The signed distance `dot(normal, p) + d` (up to the length of the normal). */
  function SignedDistance(pl: Plane, p: Vec3): real {
    Dot(pl.normal, p) + pl.d
  }
}
