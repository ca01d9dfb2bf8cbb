/**
 * The intersection engine of the three `IntersectionFinder` classes: triangles read from the candidate
 * lists, placed in the world, intersected pair by pair in nested-loop order, and the entry points
 * `findIntersection` (live), `createIntersectionModel` (second and third variants) and
 * `createGeometryFromIntersectionLines`.
 */
module Engine {
  import opened Common
  import opened Geometry
  import opened Boxes
  import opened Barycentric
  import opened Crossings
  import opened TrianglePair
  import opened Meshes

  /** The plane of a triangle: the host's `plane3.make3pt` in the live variant, `getPlaneFromTriangle` otherwise. */
  function PlaneOf(variant: Variant, host: Host, t: Triangle): Plane {
    match variant
    case Live => host.make3pt(t.a, t.b, t.c)
    case _ => PlaneFromTriangle(t)
  }

  function DedupeOf(variant: Variant): Dedupe {
    match variant
    case V2 => NoFilter
    case _ => EpsilonFilter
  }

  /** `intersectTriangles(t1, t2)` of a variant. */
  function IntersectTriangles(variant: Variant, host: Host, t1: Triangle, t2: Triangle): Option<Segment> {
    IntersectWithPlanes(DedupeOf(variant), t1, t2, PlaneOf(variant, host, t1), PlaneOf(variant, host, t2))
  }

  /** The three `mat4.mulv3(…, matrix, v)` calls; NaN vertices stay NaN and the throw stays a throw. */
  function ToWorld(host: Host, matrix: Mat4, f: Fetch): Fetch {
    match f
    case Fetched(t) => Fetched(Triangle(host.mulv3(matrix, t.a), host.mulv3(matrix, t.b), host.mulv3(matrix, t.c)))
    case _ => f
  }

  /** The world triangle of a candidate. */
  function WorldTriangle(variant: Variant, host: Host, matrix: Mat4, c: MeshTriangle): Fetch {
    ToWorld(host, matrix, TriangleVertices(variant, c.mesh.geometry, c.triangleIndex))
  }

  /**
   * The segment a pair of world triangles contributes. A triangle with a NaN coordinate contributes
   * nothing: every comparison involving it is false, so none of its points is accepted.
   */
  function PairLine(variant: Variant, host: Host, w1: Fetch, w2: Fetch): Option<Segment> {
    if w1.Fetched? && w2.Fetched? then IntersectTriangles(variant, host, w1.t, w2.t) else None
  }

  /** What one pair of world triangles contributes; the sweep is stated for any such function. */
  type PairFn = (Fetch, Fetch) -> Option<Segment>

  /** The variant's `intersectTriangles` on world triangles. */
  function PairOf(variant: Variant, host: Host): PairFn {
    (w1: Fetch, w2: Fetch) => PairLine(variant, host, w1, w2)
  }

  function AsSeq(o: Option<Segment>): (r: seq<Segment>)
    ensures |r| <= 1
  {
    if o.Some? then [o.value] else []
  }

  /** The inner loop over the first `n` triangles of `triangles2`, for the outer triangle `w1`. */
  function Row(variant: Variant, host: Host, pair: PairFn, w1: Fetch, m2: Mat4, triangles2: seq<MeshTriangle>, n: nat): Result<seq<Segment>>
    requires n <= |triangles2|
  {
    if n == 0 then Ok([])
    else
      match Row(variant, host, pair, w1, m2, triangles2, n - 1)
      case Err(e) => Err(e)
      case Ok(prev) =>
        var w2 := WorldTriangle(variant, host, m2, triangles2[n - 1]);
        if w2.Unsupported? then Err(UnsupportedIndexType)
        else Ok(prev + AsSeq(pair(w1, w2)))
  }

  /**
   * `computeTriangleIntersections` over the first `n` triangles of `triangles1`: the segments in
   * nested-loop order, or the throw of `getTriangleVertices`.
   */
  function Sweep(variant: Variant, host: Host, pair: PairFn, m1: Mat4, m2: Mat4, triangles1: seq<MeshTriangle>,
                 triangles2: seq<MeshTriangle>, n: nat): Result<seq<Segment>>
    requires n <= |triangles1|
  {
    if n == 0 then Ok([])
    else
      match Sweep(variant, host, pair, m1, m2, triangles1, triangles2, n - 1)
      case Err(e) => Err(e)
      case Ok(prev) =>
        var w1 := WorldTriangle(variant, host, m1, triangles1[n - 1]);
        if w1.Unsupported? then Err(UnsupportedIndexType)
        else
          match Row(variant, host, pair, w1, m2, triangles2, |triangles2|)
          case Err(e) => Err(e)
          case Ok(row) => Ok(prev + row)
  }

  function Lines(variant: Variant, host: Host, m1: Mat4, m2: Mat4, triangles1: seq<MeshTriangle>,
                 triangles2: seq<MeshTriangle>): Result<seq<Segment>> {
    Sweep(variant, host, PairOf(variant, host), m1, m2, triangles1, triangles2, |triangles1|)
  }

  // ---------------------------------------------------------------------------------------------------
  // Errors.

  lemma {:induction false} RowErrPersists(variant: Variant, host: Host, pair: PairFn, w1: Fetch, m2: Mat4, triangles2: seq<MeshTriangle>, n: nat, m: nat)
    requires n <= m <= |triangles2|
    requires Row(variant, host, pair, w1, m2, triangles2, n).Err?
    ensures Row(variant, host, pair, w1, m2, triangles2, m) == Row(variant, host, pair, w1, m2, triangles2, n)
    decreases m
  {
    if m > n {
      RowErrPersists(variant, host, pair, w1, m2, triangles2, n, m - 1);
    }
  }

  lemma {:induction false} SweepErrPersists(variant: Variant, host: Host, pair: PairFn, m1: Mat4, m2: Mat4, triangles1: seq<MeshTriangle>,
                                            triangles2: seq<MeshTriangle>, n: nat, m: nat)
    requires n <= m <= |triangles1|
    requires Sweep(variant, host, pair, m1, m2, triangles1, triangles2, n).Err?
    ensures Sweep(variant, host, pair, m1, m2, triangles1, triangles2, m) == Sweep(variant, host, pair, m1, m2, triangles1, triangles2, n)
    decreases m
  {
    if m > n {
      SweepErrPersists(variant, host, pair, m1, m2, triangles1, triangles2, n, m - 1);
    }
  }

  predicate UnsupportedAt(variant: Variant, host: Host, matrix: Mat4, ts: seq<MeshTriangle>, k: int)
    requires 0 <= k < |ts|
  {
    WorldTriangle(variant, host, matrix, ts[k]).Unsupported?
  }

  lemma {:induction false} RowErrIff(variant: Variant, host: Host, pair: PairFn, w1: Fetch, m2: Mat4, triangles2: seq<MeshTriangle>, n: nat)
    requires n <= |triangles2|
    ensures Row(variant, host, pair, w1, m2, triangles2, n).Err? <==>
              exists q :: 0 <= q < n && UnsupportedAt(variant, host, m2, triangles2, q)
  {
    if n > 0 {
      RowErrIff(variant, host, pair, w1, m2, triangles2, n - 1);
      if UnsupportedAt(variant, host, m2, triangles2, n - 1) {
        assert Row(variant, host, pair, w1, m2, triangles2, n).Err?;
      }
    }
  }

  /**
   * The sweep fails exactly when one of the outer triangles it reaches has an unsupported index type, or
   * there is at least one outer triangle and one of the inner triangles has one: the inner list is read
   * again for every outer triangle, and an empty outer list reads nothing.
   */
  lemma {:induction false} SweepErrIff(variant: Variant, host: Host, pair: PairFn, m1: Mat4, m2: Mat4, triangles1: seq<MeshTriangle>,
                                       triangles2: seq<MeshTriangle>, n: nat)
    requires n <= |triangles1|
    ensures Sweep(variant, host, pair, m1, m2, triangles1, triangles2, n).Err? <==>
              (exists p :: 0 <= p < n && UnsupportedAt(variant, host, m1, triangles1, p)) ||
              (n > 0 && exists q :: 0 <= q < |triangles2| && UnsupportedAt(variant, host, m2, triangles2, q))
  {
    if n > 0 {
      SweepErrIff(variant, host, pair, m1, m2, triangles1, triangles2, n - 1);
      var w1 := WorldTriangle(variant, host, m1, triangles1[n - 1]);
      RowErrIff(variant, host, pair, w1, m2, triangles2, |triangles2|);
      if UnsupportedAt(variant, host, m1, triangles1, n - 1) {
        assert Sweep(variant, host, pair, m1, m2, triangles1, triangles2, n).Err?;
      }
      if n - 1 > 0 && exists q :: 0 <= q < |triangles2| && UnsupportedAt(variant, host, m2, triangles2, q) {
        assert Sweep(variant, host, pair, m1, m2, triangles1, triangles2, n - 1).Err?;
      }
    }
  }

  lemma UnsupportedOnlyInV2World(variant: Variant, host: Host, matrix: Mat4, c: MeshTriangle)
    requires variant != V2
    ensures !WorldTriangle(variant, host, matrix, c).Unsupported?
  {
    UnsupportedOnlyInV2(variant, c.mesh.geometry, c.triangleIndex);
  }

  /** Only the second variant can fail: the others convert or pass through every index type. */
  lemma SweepNeverFailsOutsideV2(variant: Variant, host: Host, m1: Mat4, m2: Mat4, triangles1: seq<MeshTriangle>,
                                 triangles2: seq<MeshTriangle>)
    requires variant != V2
    ensures Lines(variant, host, m1, m2, triangles1, triangles2).Ok?
  {
    SweepErrIff(variant, host, PairOf(variant, host), m1, m2, triangles1, triangles2, |triangles1|);
    forall p | 0 <= p < |triangles1|
      ensures !UnsupportedAt(variant, host, m1, triangles1, p)
    {
      UnsupportedOnlyInV2World(variant, host, m1, triangles1[p]);
    }
    forall q | 0 <= q < |triangles2|
      ensures !UnsupportedAt(variant, host, m2, triangles2, q)
    {
      UnsupportedOnlyInV2World(variant, host, m2, triangles2[q]);
    }
  }

  // ---------------------------------------------------------------------------------------------------
  // What the sweep returns.

  lemma {:induction false} RowBound(variant: Variant, host: Host, pair: PairFn, w1: Fetch, m2: Mat4, triangles2: seq<MeshTriangle>, n: nat)
    requires n <= |triangles2|
    ensures Row(variant, host, pair, w1, m2, triangles2, n).Ok? ==> |Row(variant, host, pair, w1, m2, triangles2, n).value| <= n
  {
    if n > 0 {
      RowBound(variant, host, pair, w1, m2, triangles2, n - 1);
    }
  }

  /** At most one segment per pair: `|lines| <= |triangles1| · |triangles2|`. */
  lemma {:induction false} SweepBound(variant: Variant, host: Host, pair: PairFn, m1: Mat4, m2: Mat4, triangles1: seq<MeshTriangle>,
                                      triangles2: seq<MeshTriangle>, n: nat)
    requires n <= |triangles1|
    ensures Sweep(variant, host, pair, m1, m2, triangles1, triangles2, n).Ok? ==>
              |Sweep(variant, host, pair, m1, m2, triangles1, triangles2, n).value| <= n * |triangles2|
  {
    if n > 0 {
      SweepBound(variant, host, pair, m1, m2, triangles1, triangles2, n - 1);
      var w1 := WorldTriangle(variant, host, m1, triangles1[n - 1]);
      RowBound(variant, host, pair, w1, m2, triangles2, |triangles2|);
      assert n * |triangles2| == (n - 1) * |triangles2| + |triangles2|;
    }
  }

  /** The segment comes from the candidate pair `(p, q)`. */
  predicate FromPair(variant: Variant, host: Host, pair: PairFn, m1: Mat4, m2: Mat4, triangles1: seq<MeshTriangle>,
                     triangles2: seq<MeshTriangle>, p: int, q: int, s: Segment)
  {
    0 <= p < |triangles1| && 0 <= q < |triangles2| &&
    pair(WorldTriangle(variant, host, m1, triangles1[p]), WorldTriangle(variant, host, m2, triangles2[q])) == Some(s)
  }

  lemma {:induction false} RowFromPairs(variant: Variant, host: Host, pair: PairFn, m1: Mat4, m2: Mat4, triangles1: seq<MeshTriangle>,
                                        triangles2: seq<MeshTriangle>, p: int, n: nat)
    requires 0 <= p < |triangles1| && n <= |triangles2|
    ensures var w1 := WorldTriangle(variant, host, m1, triangles1[p]);
            Row(variant, host, pair, w1, m2, triangles2, n).Ok? ==>
              forall s :: s in Row(variant, host, pair, w1, m2, triangles2, n).value ==>
                exists q :: 0 <= q < n && FromPair(variant, host, pair, m1, m2, triangles1, triangles2, p, q, s)
  {
    if n > 0 {
      RowFromPairs(variant, host, pair, m1, m2, triangles1, triangles2, p, n - 1);
      var w1 := WorldTriangle(variant, host, m1, triangles1[p]);
      var r := Row(variant, host, pair, w1, m2, triangles2, n);
      if r.Ok? {
        var prev := Row(variant, host, pair, w1, m2, triangles2, n - 1).value;
        var w2 := WorldTriangle(variant, host, m2, triangles2[n - 1]);
        assert r.value == prev + AsSeq(pair(w1, w2));
        forall s | s in r.value
          ensures exists q :: 0 <= q < n && FromPair(variant, host, pair, m1, m2, triangles1, triangles2, p, q, s)
        {
          if s !in prev {
            assert FromPair(variant, host, pair, m1, m2, triangles1, triangles2, p, n - 1, s);
          }
        }
      }
    }
  }

  /** Every segment of the sweep is the intersection of one pair of candidate triangles. */
  lemma {:induction false} SweepFromPairs(variant: Variant, host: Host, pair: PairFn, m1: Mat4, m2: Mat4, triangles1: seq<MeshTriangle>,
                                          triangles2: seq<MeshTriangle>, n: nat)
    requires n <= |triangles1|
    ensures Sweep(variant, host, pair, m1, m2, triangles1, triangles2, n).Ok? ==>
              forall s :: s in Sweep(variant, host, pair, m1, m2, triangles1, triangles2, n).value ==>
                exists p, q :: 0 <= p < n && FromPair(variant, host, pair, m1, m2, triangles1, triangles2, p, q, s)
  {
    if n > 0 {
      SweepFromPairs(variant, host, pair, m1, m2, triangles1, triangles2, n - 1);
      var r := Sweep(variant, host, pair, m1, m2, triangles1, triangles2, n);
      if r.Ok? {
        var prev := Sweep(variant, host, pair, m1, m2, triangles1, triangles2, n - 1).value;
        var w1 := WorldTriangle(variant, host, m1, triangles1[n - 1]);
        var row := Row(variant, host, pair, w1, m2, triangles2, |triangles2|);
        RowFromPairs(variant, host, pair, m1, m2, triangles1, triangles2, n - 1, |triangles2|);
        assert r.value == prev + row.value;
        forall s | s in r.value
          ensures exists p, q :: 0 <= p < n && FromPair(variant, host, pair, m1, m2, triangles1, triangles2, p, q, s)
        {
          if s !in prev {
            var q :| 0 <= q < |triangles2| && FromPair(variant, host, pair, m1, m2, triangles1, triangles2, n - 1, q, s);
            assert 0 <= n - 1 < n;
          }
        }
      }
    }
  }

  /** Conversely, the segment of every inner candidate is in the row. */
  lemma {:induction false} RowComplete(variant: Variant, host: Host, pair: PairFn, w1: Fetch, m2: Mat4, triangles2: seq<MeshTriangle>,
                                       n: nat, q: int, s: Segment)
    requires n <= |triangles2| && 0 <= q < n
    requires Row(variant, host, pair, w1, m2, triangles2, n).Ok?
    requires pair(w1, WorldTriangle(variant, host, m2, triangles2[q])) == Some(s)
    ensures s in Row(variant, host, pair, w1, m2, triangles2, n).value
  {
    if q < n - 1 {
      RowComplete(variant, host, pair, w1, m2, triangles2, n - 1, q, s);
    }
  }

  /** Conversely, the segment of every candidate pair is in the sweep. */
  lemma {:induction false} SweepComplete(variant: Variant, host: Host, pair: PairFn, m1: Mat4, m2: Mat4, triangles1: seq<MeshTriangle>,
                                         triangles2: seq<MeshTriangle>, n: nat, p: int, q: int, s: Segment)
    requires n <= |triangles1| && 0 <= p < n
    requires Sweep(variant, host, pair, m1, m2, triangles1, triangles2, n).Ok?
    requires FromPair(variant, host, pair, m1, m2, triangles1, triangles2, p, q, s)
    ensures s in Sweep(variant, host, pair, m1, m2, triangles1, triangles2, n).value
  {
    if p < n - 1 {
      SweepComplete(variant, host, pair, m1, m2, triangles1, triangles2, n - 1, p, q, s);
    } else {
      var w1 := WorldTriangle(variant, host, m1, triangles1[n - 1]);
      RowComplete(variant, host, pair, w1, m2, triangles2, |triangles2|, q, s);
    }
  }

  /**
   * A segment of a pair has distinct endpoints, and both endpoints and their midpoint lie inside both
   * world triangles; a pair with a NaN triangle contributes nothing.
   */
  lemma PairLineSound(variant: Variant, host: Host, w1: Fetch, w2: Fetch)
    ensures PairLine(variant, host, w1, w2).Some? ==>
              w1.Fetched? && w2.Fetched? &&
              PairLine(variant, host, w1, w2).value.a != PairLine(variant, host, w1, w2).value.b &&
              IsValidIntersection(PairLine(variant, host, w1, w2).value.a, PairLine(variant, host, w1, w2).value.b, w1.t, w2.t)
  {
    if w1.Fetched? && w2.Fetched? {
      IntersectionSound(DedupeOf(variant), w1.t, w2.t, PlaneOf(variant, host, w1.t), PlaneOf(variant, host, w2.t));
    }
  }

  // ---------------------------------------------------------------------------------------------------
  // The nested sweep.

  /** The inner loop of `computeTriangleIntersections`, for the outer world triangle `vertices1World`. */
  method IntersectRow(variant: Variant, host: Host, pair: PairFn, vertices1World: Fetch, m2: Mat4, triangles2: seq<MeshTriangle>)
    returns (r: Result<seq<Segment>>)
    ensures r == Row(variant, host, pair, vertices1World, m2, triangles2, |triangles2|)
  {
    var row: seq<Segment> := [];
    var j := 0;
    while j < |triangles2|
      invariant 0 <= j <= |triangles2|
      invariant Row(variant, host, pair, vertices1World, m2, triangles2, j) == Ok(row)
    {
      var vertices2World := WorldTriangle(variant, host, m2, triangles2[j]);
      if vertices2World.Unsupported? {
        RowErrPersists(variant, host, pair, vertices1World, m2, triangles2, j + 1, |triangles2|);
        return Err(UnsupportedIndexType);
      }
      var intersection := pair(vertices1World, vertices2World);
      assert Row(variant, host, pair, vertices1World, m2, triangles2, j + 1) == Ok(row + AsSeq(intersection));
      if intersection.Some? {
        row := row + [intersection.value];
      } else {
        assert row + AsSeq(intersection) == row;
      }
      j := j + 1;
    }
    r := Ok(row);
  }

  /** One step of the outer loop, by the outcome of the outer triangle and of its row. */
  lemma SweepStep(variant: Variant, host: Host, pair: PairFn, m1: Mat4, m2: Mat4, triangles1: seq<MeshTriangle>,
                  triangles2: seq<MeshTriangle>, i: nat, prev: seq<Segment>)
    requires i < |triangles1| && Sweep(variant, host, pair, m1, m2, triangles1, triangles2, i) == Ok(prev)
    ensures var w1 := WorldTriangle(variant, host, m1, triangles1[i]);
            var row := Row(variant, host, pair, w1, m2, triangles2, |triangles2|);
            var next := Sweep(variant, host, pair, m1, m2, triangles1, triangles2, i + 1);
            (w1.Unsupported? ==> next == Err(UnsupportedIndexType)) &&
            (!w1.Unsupported? && row.Err? ==> next == Err(row.error)) &&
            (!w1.Unsupported? && row.Ok? ==> next == Ok(prev + row.value))
  {
  }

  /** The outer loop of `computeTriangleIntersections`, for any intersection of a pair of world triangles. */
  method SweepRows(variant: Variant, host: Host, pair: PairFn, m1: Mat4, m2: Mat4,
                   triangles1: seq<MeshTriangle>, triangles2: seq<MeshTriangle>)
    returns (r: Result<seq<Segment>>)
    ensures r == Sweep(variant, host, pair, m1, m2, triangles1, triangles2, |triangles1|)
  {
    var intersectionLines: seq<Segment> := [];
    var i := 0;
    while i < |triangles1|
      invariant 0 <= i <= |triangles1|
      invariant Sweep(variant, host, pair, m1, m2, triangles1, triangles2, i) == Ok(intersectionLines)
    {
      SweepStep(variant, host, pair, m1, m2, triangles1, triangles2, i, intersectionLines);
      var vertices1World := WorldTriangle(variant, host, m1, triangles1[i]);
      if vertices1World.Unsupported? {
        SweepErrPersists(variant, host, pair, m1, m2, triangles1, triangles2, i + 1, |triangles1|);
        return Err(UnsupportedIndexType);
      }
      var row := IntersectRow(variant, host, pair, vertices1World, m2, triangles2);
      if row.Err? {
        SweepErrPersists(variant, host, pair, m1, m2, triangles1, triangles2, i + 1, |triangles1|);
        return Err(row.error);
      }
      intersectionLines := intersectionLines + row.value;
      i := i + 1;
    }
    r := Ok(intersectionLines);
  }

  /** `computeTriangleIntersections`: the nested loops, outer over `triangles1`. */
  method ComputeTriangleIntersections(variant: Variant, host: Host, model1: Model3d, model2: Model3d,
                                      triangles1: seq<MeshTriangle>, triangles2: seq<MeshTriangle>)
    returns (r: Result<seq<Segment>>)
    ensures r == Lines(variant, host, model1.matrix, model2.matrix, triangles1, triangles2)
  {
    r := SweepRows(variant, host, PairOf(variant, host), model1.matrix, model2.matrix, triangles1, triangles2);
  }

  // ---------------------------------------------------------------------------------------------------
  // Entry points.

  /** `findIntersection(model1, model2)` of the live variant. */
  function FindsIntersection(host: Host, model1: Model3d, model2: Model3d): bool {
    var box1World := WorldBox(host, model1);
    var box2World := WorldBox(host, model2);
    if box1World.None? || box2World.None? then false
    else
      var intersectionBoxWorld := ComputeIntersectionBox(box1World.value, box2World.value);
      if intersectionBoxWorld.None? then false
      else
        var lines := Lines(Live, host, model1.matrix, model2.matrix,
                           Candidates(host, model1, intersectionBoxWorld.value),
                           Candidates(host, model2, intersectionBoxWorld.value));
        lines.Ok? && |lines.value| > 0
  }

  /** `findIntersection` of the live variant: the calls in order, with the three early `false` returns. */
  method FindIntersection(host: Host, model1: Model3d, model2: Model3d) returns (found: bool)
    ensures found == FindsIntersection(host, model1, model2)
  {
    var box1World := GetWorldBoundingBox(host, model1);
    if box1World.None? {
      return false;
    }
    var box2World := GetWorldBoundingBox(host, model2);
    if box2World.None? {
      return false;
    }
    var intersectionBoxWorld := ComputeIntersectionBox(box1World.value, box2World.value);
    if intersectionBoxWorld.None? {
      return false;
    }
    var candidateTriangles1 := GetCandidateTriangles(host, model1, intersectionBoxWorld.value);
    var candidateTriangles2 := GetCandidateTriangles(host, model2, intersectionBoxWorld.value);
    var intersectionLines := ComputeTriangleIntersections(Live, host, model1, model2, candidateTriangles1, candidateTriangles2);
    SweepNeverFailsOutsideV2(Live, host, model1.matrix, model2.matrix, candidateTriangles1, candidateTriangles2);
    found := |intersectionLines.value| > 0;
  }

  /**
   * `findIntersection` answers `true` only when both models have a world box, the boxes overlap, and
   * some pair of candidate triangles yields a segment with distinct endpoints lying, with their
   * midpoint, inside both world triangles.
   */
  lemma FindsIntersectionWitness(host: Host, model1: Model3d, model2: Model3d)
    requires FindsIntersection(host, model1, model2)
    ensures WorldBox(host, model1).Some? && WorldBox(host, model2).Some?
    ensures ComputeIntersectionBox(WorldBox(host, model1).value, WorldBox(host, model2).value).Some?
    ensures var box := ComputeIntersectionBox(WorldBox(host, model1).value, WorldBox(host, model2).value).value;
            exists p, q, s :: FromPair(Live, host, PairOf(Live, host), model1.matrix, model2.matrix,
                                       Candidates(host, model1, box), Candidates(host, model2, box), p, q, s) &&
                              s.a != s.b
  {
    var box := ComputeIntersectionBox(WorldBox(host, model1).value, WorldBox(host, model2).value).value;
    var c1, c2 := Candidates(host, model1, box), Candidates(host, model2, box);
    var lines := Lines(Live, host, model1.matrix, model2.matrix, c1, c2);
    SweepFromPairs(Live, host, PairOf(Live, host), model1.matrix, model2.matrix, c1, c2, |c1|);
    var s := lines.value[0];
    assert s in lines.value;
    var p, q :| 0 <= p < |c1| && FromPair(Live, host, PairOf(Live, host), model1.matrix, model2.matrix, c1, c2, p, q, s);
    PairLineSound(Live, host, WorldTriangle(Live, host, model1.matrix, c1[p]), WorldTriangle(Live, host, model2.matrix, c2[q]));
  }

  /** Both world boxes exist, they overlap, and some candidate pair yields a segment with distinct endpoints. */
  ghost predicate HasIntersectingPair(host: Host, model1: Model3d, model2: Model3d) {
    WorldBox(host, model1).Some? && WorldBox(host, model2).Some? &&
    model1.meshes.Some? && model2.meshes.Some? &&
    var box := ComputeIntersectionBox(WorldBox(host, model1).value, WorldBox(host, model2).value);
    box.Some? &&
    exists p, q, s :: FromPair(Live, host, PairOf(Live, host), model1.matrix, model2.matrix,
                               Candidates(host, model1, box.value), Candidates(host, model2, box.value), p, q, s) &&
                      s.a != s.b
  }

  /** `findIntersection` answers `true` exactly when some candidate pair of the overlap intersects. */
  lemma FindsIntersectionIff(host: Host, model1: Model3d, model2: Model3d)
    ensures FindsIntersection(host, model1, model2) <==> HasIntersectingPair(host, model1, model2)
  {
    if FindsIntersection(host, model1, model2) {
      FindsIntersectionWitness(host, model1, model2);
    }
    if HasIntersectingPair(host, model1, model2) {
      var box := ComputeIntersectionBox(WorldBox(host, model1).value, WorldBox(host, model2).value).value;
      var c1, c2 := Candidates(host, model1, box), Candidates(host, model2, box);
      var p, q, s :| FromPair(Live, host, PairOf(Live, host), model1.matrix, model2.matrix, c1, c2, p, q, s) && s.a != s.b;
      SweepNeverFailsOutsideV2(Live, host, model1.matrix, model2.matrix, c1, c2);
      SweepComplete(Live, host, PairOf(Live, host), model1.matrix, model2.matrix, c1, c2, |c1|, p, q, s);
    }
  }

  /** A model without meshes, or none with geometry, intersects nothing. */
  lemma NoGeometryFindsNothing(host: Host, model1: Model3d, model2: Model3d)
    requires model1.meshes.None? || forall k :: 0 <= k < |model1.meshes.value| ==> !HasGeometry(model1.meshes.value[k])
    ensures !FindsIntersection(host, model1, model2)
    ensures !FindsIntersection(host, model2, model1)
  {
    WorldBoxNone(host, model1);
  }

  /** World boxes that only touch, or are apart, on some axis: no intersection. */
  lemma SeparatedBoxesFindNothing(host: Host, model1: Model3d, model2: Model3d)
    requires WorldBox(host, model1).Some? && WorldBox(host, model2).Some?
    requires var b1, b2 := WorldBox(host, model1).value, WorldBox(host, model2).value;
             b1.hi.x <= b2.lo.x || b1.hi.y <= b2.lo.y || b1.hi.z <= b2.lo.z
    ensures !FindsIntersection(host, model1, model2)
  {
    TouchingBoxesDoNotOverlap(WorldBox(host, model1).value, WorldBox(host, model2).value);
  }

  /** `createIntersectionModel(model1, model2)` of the second variant: `true` when some segment was found. */
  function IntersectsV2(host: Host, model1: Model3d, model2: Model3d): Result<bool> {
    var box1World := WorldBox(host, model1).GetOr(ZeroBox);
    var box2World := WorldBox(host, model2).GetOr(ZeroBox);
    var intersectionBoxWorld := ComputeIntersectionBox(box1World, box2World);
    if intersectionBoxWorld.None? then Ok(false)
    else
      assert model1.meshes.Some? && model2.meshes.Some? by {
        if model1.meshes.None? {
          EmptyModelV2OverlapsNothing(host, model1, box2World);
        }
        if model2.meshes.None? {
          EmptyModelV2OverlapsNothing(host, model2, box1World);
        }
      }
      match Lines(V2, host, model1.matrix, model2.matrix,
                  Candidates(host, model1, intersectionBoxWorld.value),
                  Candidates(host, model2, intersectionBoxWorld.value))
      case Err(e) => Err(e)
      case Ok(lines) => Ok(|lines| > 0)
  }

  /** `createIntersectionModel` of the second variant (which its `findIntersection` returns as is). */
  method CreateIntersectionModelV2(host: Host, model1: Model3d, model2: Model3d) returns (r: Result<bool>)
    ensures r == IntersectsV2(host, model1, model2)
  {
    var box1World := GetWorldBoundingBoxV2(host, model1);
    var box2World := GetWorldBoundingBoxV2(host, model2);
    var intersectionBoxWorld := ComputeIntersectionBox(box1World, box2World);
    if intersectionBoxWorld.None? {
      return Ok(false);
    }
    if model1.meshes.None? {
      EmptyModelV2OverlapsNothing(host, model1, box2World);
    }
    if model2.meshes.None? {
      EmptyModelV2OverlapsNothing(host, model2, box1World);
    }
    var candidateTriangles1 := GetCandidateTriangles(host, model1, intersectionBoxWorld.value);
    var candidateTriangles2 := GetCandidateTriangles(host, model2, intersectionBoxWorld.value);
    var intersectionLines := ComputeTriangleIntersections(V2, host, model1, model2, candidateTriangles1, candidateTriangles2);
    if intersectionLines.Err? {
      return Err(intersectionLines.error);
    }
    return Ok(|intersectionLines.value| > 0);
  }

  /** In the second variant a model without geometry overlaps nothing, so the answer is `false`, never a throw. */
  lemma NoGeometryV2IsFalse(host: Host, model1: Model3d, model2: Model3d)
    requires model1.meshes.None? || forall k :: 0 <= k < |model1.meshes.value| ==> !HasGeometry(model1.meshes.value[k])
    ensures IntersectsV2(host, model1, model2) == Ok(false)
    ensures IntersectsV2(host, model2, model1) == Ok(false)
  {
    EmptyModelV2OverlapsNothing(host, model1, WorldBox(host, model2).GetOr(ZeroBox));
  }

  /**
   * The second variant fails exactly when the overlap exists and the sweep reaches a triangle with an
   * unsupported index type; otherwise it answers whether a segment was found.
   */
  lemma IntersectsV2Errors(host: Host, model1: Model3d, model2: Model3d)
    ensures IntersectsV2(host, model1, model2).Err? ==> IntersectsV2(host, model1, model2).error == UnsupportedIndexType
    ensures var box := ComputeIntersectionBox(WorldBox(host, model1).GetOr(ZeroBox), WorldBox(host, model2).GetOr(ZeroBox));
            IntersectsV2(host, model1, model2).Err? ==>
              box.Some? && model1.meshes.Some? && model2.meshes.Some? &&
              var c1, c2 := Candidates(host, model1, box.value), Candidates(host, model2, box.value);
              (exists p :: 0 <= p < |c1| && UnsupportedAt(V2, host, model1.matrix, c1, p)) ||
              (|c1| > 0 && exists q :: 0 <= q < |c2| && UnsupportedAt(V2, host, model2.matrix, c2, q))
  {
    var box := ComputeIntersectionBox(WorldBox(host, model1).GetOr(ZeroBox), WorldBox(host, model2).GetOr(ZeroBox));
    if box.Some? {
      if model1.meshes.None? {
        EmptyModelV2OverlapsNothing(host, model1, WorldBox(host, model2).GetOr(ZeroBox));
      }
      if model2.meshes.None? {
        EmptyModelV2OverlapsNothing(host, model2, WorldBox(host, model1).GetOr(ZeroBox));
      }
      var c1, c2 := Candidates(host, model1, box.value), Candidates(host, model2, box.value);
      SweepErrIff(V2, host, PairOf(V2, host), model1.matrix, model2.matrix, c1, c2, |c1|);
      RowErrorIsUnsupported(host, PairOf(V2, host), model1.matrix, model2.matrix, c1, c2, |c1|);
    }
  }

  lemma {:induction false} RowErrorIsUnsupported(host: Host, pair: PairFn, m1: Mat4, m2: Mat4, triangles1: seq<MeshTriangle>,
                                                 triangles2: seq<MeshTriangle>, n: nat)
    requires n <= |triangles1|
    ensures Sweep(V2, host, pair, m1, m2, triangles1, triangles2, n).Err? ==>
              Sweep(V2, host, pair, m1, m2, triangles1, triangles2, n).error == UnsupportedIndexType
  {
    if n > 0 {
      RowErrorIsUnsupported(host, pair, m1, m2, triangles1, triangles2, n - 1);
      var w1 := WorldTriangle(V2, host, m1, triangles1[n - 1]);
      RowErrorUnsupported(host, pair, w1, m2, triangles2, |triangles2|);
    }
  }

  lemma {:induction false} RowErrorUnsupported(host: Host, pair: PairFn, w1: Fetch, m2: Mat4, triangles2: seq<MeshTriangle>, n: nat)
    requires n <= |triangles2|
    ensures Row(V2, host, pair, w1, m2, triangles2, n).Err? ==> Row(V2, host, pair, w1, m2, triangles2, n).error == UnsupportedIndexType
  {
    if n > 0 {
      RowErrorUnsupported(host, pair, w1, m2, triangles2, n - 1);
    }
  }

  // ---------------------------------------------------------------------------------------------------
  // Line geometry.

  /** The vertex floats and line indices of `createGeometryFromIntersectionLines`. */
  datatype LineGeometry = LineGeometry(vertices: seq<real>, indices: seq<int>)

  function SegmentFloats(s: Segment): seq<real> {
    [s.a.x, s.a.y, s.a.z, s.b.x, s.b.y, s.b.z]
  }

  /** `a.xyz, b.xyz` for each line, in order. */
  function LineVertices(lines: seq<Segment>): (r: seq<real>)
    ensures |r| == 6 * |lines|
  {
    if lines == [] then [] else LineVertices(lines[..|lines| - 1]) + SegmentFloats(lines[|lines| - 1])
  }

  /** `0, 1, …, n - 1`. */
  function Count(n: nat): (r: seq<int>)
    ensures |r| == n && forall k :: 0 <= k < n ==> r[k] == k
  {
    if n == 0 then [] else Count(n - 1) + [n - 1]
  }

  /** Reads the vertex floats back, six at a time, as segments. */
  function DecodeLines(vs: seq<real>): seq<Segment>
    decreases |vs|
  {
    if |vs| < 6 then []
    else [Segment(Vec3(vs[0], vs[1], vs[2]), Vec3(vs[3], vs[4], vs[5]))] + DecodeLines(vs[6..])
  }

  lemma {:induction false} DecodeAppend(vs: seq<real>, s: Segment)
    requires |vs| % 6 == 0
    ensures DecodeLines(vs + SegmentFloats(s)) == DecodeLines(vs) + [s]
    decreases |vs|
  {
    if |vs| == 0 {
      assert (vs + SegmentFloats(s))[6..] == [];
    } else {
      assert (vs + SegmentFloats(s))[6..] == vs[6..] + SegmentFloats(s);
      DecodeAppend(vs[6..], s);
    }
  }

  /** The vertex buffer holds the lines exactly: reading it back six floats at a time gives them back. */
  lemma {:induction false} LineVerticesRoundTrip(lines: seq<Segment>)
    ensures DecodeLines(LineVertices(lines)) == lines
  {
    if lines != [] {
      var init := lines[..|lines| - 1];
      LineVerticesRoundTrip(init);
      DecodeAppend(LineVertices(init), lines[|lines| - 1]);
      assert init + [lines[|lines| - 1]] == lines;
    }
  }

  /**
   * `createGeometryFromIntersectionLines(lines)`: six floats and two consecutive indices per line. The
   * normals buffer and `calculateNormals` are the host's.
   */
  method CreateGeometryFromIntersectionLines(lines: seq<Segment>) returns (g: LineGeometry)
    ensures g.vertices == LineVertices(lines)
    ensures g.indices == Count(2 * |lines|)
  {
    var vertices: seq<real> := [];
    var indices: seq<int> := [];
    var vertexIndex := 0;
    var i := 0;
    while i < |lines|
      invariant 0 <= i <= |lines|
      invariant vertices == LineVertices(lines[..i])
      invariant indices == Count(2 * i) && vertexIndex == 2 * i
    {
      var line := lines[i];
      assert lines[..i + 1][..i] == lines[..i];
      vertices := vertices + [line.a.x, line.a.y, line.a.z, line.b.x, line.b.y, line.b.z];
      indices := indices + [vertexIndex, vertexIndex + 1];
      assert Count(2 * (i + 1)) == Count(2 * i) + [2 * i] + [2 * i + 1];
      vertexIndex := vertexIndex + 2;
      i := i + 1;
    }
    assert lines[..i] == lines;
    g := LineGeometry(vertices, indices);
  }

  /**
   * `createIntersectionModel` of the third variant, up to the model it builds: the line geometry of the
   * segments found, the empty geometry of `createEmptyDwgModel3d` when the boxes do not overlap, and a
   * `TypeError` when either model has no `meshes`.
   */
  function IntersectionModelV3(host: Host, model1: Model3d, model2: Model3d): Result<LineGeometry> {
    match (WorldBoxV3(host, model1), WorldBoxV3(host, model2))
    case (Err(e), _) => Err(e)
    case (_, Err(e)) => Err(e)
    case (Ok(box1World), Ok(box2World)) =>
      var intersectionBoxWorld := ComputeIntersectionBox(box1World, box2World);
      if intersectionBoxWorld.None? then Ok(LineGeometry([], []))
      else
        SweepNeverFailsOutsideV2(V3, host, model1.matrix, model2.matrix,
                                 Candidates(host, model1, intersectionBoxWorld.value),
                                 Candidates(host, model2, intersectionBoxWorld.value));
        var lines := Lines(V3, host, model1.matrix, model2.matrix,
                           Candidates(host, model1, intersectionBoxWorld.value),
                           Candidates(host, model2, intersectionBoxWorld.value)).value;
        Ok(LineGeometry(LineVertices(lines), Count(2 * |lines|)))
  }

  method CreateIntersectionModelV3(host: Host, model1: Model3d, model2: Model3d) returns (r: Result<LineGeometry>)
    ensures r == IntersectionModelV3(host, model1, model2)
  {
    var box1World := WorldBoxV3(host, model1);
    if box1World.Err? {
      return Err(box1World.error);
    }
    var box2World := WorldBoxV3(host, model2);
    if box2World.Err? {
      return Err(box2World.error);
    }
    var intersectionBoxWorld := ComputeIntersectionBox(box1World.value, box2World.value);
    if intersectionBoxWorld.None? {
      return Ok(LineGeometry([], []));
    }
    var candidateTriangles1 := GetCandidateTriangles(host, model1, intersectionBoxWorld.value);
    var candidateTriangles2 := GetCandidateTriangles(host, model2, intersectionBoxWorld.value);
    var intersectionLines := ComputeTriangleIntersections(V3, host, model1, model2, candidateTriangles1, candidateTriangles2);
    SweepNeverFailsOutsideV2(V3, host, model1.matrix, model2.matrix, candidateTriangles1, candidateTriangles2);
    var geometry := CreateGeometryFromIntersectionLines(intersectionLines.value);
    return Ok(geometry);
  }

  /**
   * The third variant throws exactly when a model has no `meshes`; otherwise its geometry holds each
   * segment found as six floats, readable back, and two line indices.
   */
  lemma IntersectionModelV3Shape(host: Host, model1: Model3d, model2: Model3d)
    ensures IntersectionModelV3(host, model1, model2).Err? <==> model1.meshes.None? || model2.meshes.None?
    ensures IntersectionModelV3(host, model1, model2).Ok? ==>
              var g := IntersectionModelV3(host, model1, model2).value;
              |g.vertices| == 3 * |g.indices| &&
              forall k :: 0 <= k < |g.indices| ==> g.indices[k] == k
  {
  }
}
