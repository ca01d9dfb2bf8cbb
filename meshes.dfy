/**
 * The mesh data the engine reads: models with an optional list of meshes and a placement matrix,
 * per-mesh geometry (bounds, spatial index, vertex and index buffers), the world bounding box of a
 * model, the candidate triangles of a model inside a box, and the vertices of one triangle.
 *
 * The host library's matrix and box operations and its spatial index are not visible: they are the
 * fields of `Host`, functions the engine calls and about which nothing is assumed.
 */
module Meshes {
  import opened Common
  import opened Geometry
  import opened Boxes

  /** A 4×4 placement matrix; only the host looks inside it. */
  datatype Mat4 = Mat4(entries: seq<real>)

  /** A mesh's broad-phase index, queried through `Host.walkBox`. */
  datatype SpatialIndex = SpatialIndex(handle: int)

  /**
   * The host operations: `box3.transformed`, `mat4.inverse`, `mat4.mulv3`, `SpatialIndex.walkBox`
   * (the triangle indices it visits, in visit order) and `plane3.make3pt`.
   */
  datatype Host = Host(
    transformed: (Box3, Mat4) -> Box3,
    inverse: Mat4 -> Mat4,
    mulv3: (Mat4, Vec3) -> Vec3,
    walkBox: (SpatialIndex, Box3) -> seq<int>,
    make3pt: (Vec3, Vec3, Vec3) -> Plane)

  /** The typed array holding a mesh's indices. */
  datatype IndexKind = Uint8 | Uint16 | Uint32 | OtherKind

  datatype IndexBuffer = IndexBuffer(kind: IndexKind, values: seq<int>)

  /** `DwgGeometry3d`: local bounds, and the optional spatial index, vertex floats and indices. */
  datatype MeshGeometry = MeshGeometry(
    bounds: Box3,
    spatial: Option<SpatialIndex>,
    vertices: Option<seq<real>>,
    indices: Option<IndexBuffer>)

  datatype Mesh = Mesh(geometry: Option<MeshGeometry>)

  /** `DwgModel3d`: `meshes` may be undefined. */
  datatype Model3d = Model3d(meshes: Option<seq<Mesh>>, matrix: Mat4)

  /** `{ mesh, triangleIndex }`. */
  datatype MeshTriangle = MeshTriangle(mesh: Mesh, triangleIndex: int)

  /** The three engine classes: the live `interceptor3.ts` and the earlier `interceptorv2.ts` and `interceptorv3.ts`. */
  datatype Variant = Live | V2 | V3

  // ---------------------------------------------------------------------------------------------------
  // World bounding box.

  predicate HasGeometry(m: Mesh) { m.geometry.Some? }

  /** The world box of a mesh with geometry: its local bounds transformed by the model matrix. */
  function MeshWorldBox(host: Host, matrix: Mat4, m: Mesh): Box3
    requires HasGeometry(m)
  {
    host.transformed(m.geometry.value.bounds, matrix)
  }

  /** The state `box`/`initialized` of the bounding-box loop after the first `n` meshes. */
  function UnionUpTo(host: Host, matrix: Mat4, meshes: seq<Mesh>, n: nat): Option<Box3>
    requires n <= |meshes|
  {
    if n == 0 then None
    else
      var prev := UnionUpTo(host, matrix, meshes, n - 1);
      var m := meshes[n - 1];
      if !HasGeometry(m) then prev
      else if prev.None? then Some(MeshWorldBox(host, matrix, m))
      else Some(Union(prev.value, MeshWorldBox(host, matrix, m)))
  }

  /** `getWorldBoundingBox` of the live variant: `undefined` becomes `None`. */
  function WorldBox(host: Host, model: Model3d): Option<Box3> {
    match model.meshes
    case None => None
    case Some(meshes) => UnionUpTo(host, model.matrix, meshes, |meshes|)
  }

  lemma {:induction false} UnionUpToNone(host: Host, matrix: Mat4, meshes: seq<Mesh>, n: nat)
    requires n <= |meshes|
    ensures UnionUpTo(host, matrix, meshes, n).None? <==> forall k :: 0 <= k < n ==> !HasGeometry(meshes[k])
  {
    if n > 0 {
      UnionUpToNone(host, matrix, meshes, n - 1);
    }
  }

  lemma {:induction false} UnionUpToCovers(host: Host, matrix: Mat4, meshes: seq<Mesh>, n: nat)
    requires n <= |meshes|
    ensures UnionUpTo(host, matrix, meshes, n).Some? ==>
              forall k :: 0 <= k < n && HasGeometry(meshes[k]) ==>
                ContainsBox(UnionUpTo(host, matrix, meshes, n).value, MeshWorldBox(host, matrix, meshes[k]))
  {
    if n > 0 {
      UnionUpToCovers(host, matrix, meshes, n - 1);
      var prev := UnionUpTo(host, matrix, meshes, n - 1);
      var cur := UnionUpTo(host, matrix, meshes, n);
      if cur.Some? {
        forall k | 0 <= k < n && HasGeometry(meshes[k])
          ensures ContainsBox(cur.value, MeshWorldBox(host, matrix, meshes[k]))
        {
          var mk := MeshWorldBox(host, matrix, meshes[k]);
          if k == n - 1 {
            if prev.Some? {
              assert cur.value == Union(prev.value, mk);
            } else {
              assert cur.value == mk;
            }
          } else if HasGeometry(meshes[n - 1]) {
            UnionUpToNone(host, matrix, meshes, n - 1);
            assert ContainsBox(prev.value, mk);
            assert cur.value == Union(prev.value, MeshWorldBox(host, matrix, meshes[n - 1]));
            ContainsBoxTransitive(cur.value, prev.value, mk);
          }
        }
      }
    }
  }

  lemma {:induction false} UnionUpToLeast(host: Host, matrix: Mat4, meshes: seq<Mesh>, n: nat, c: Box3)
    requires n <= |meshes|
    requires forall k :: 0 <= k < n && HasGeometry(meshes[k]) ==> ContainsBox(c, MeshWorldBox(host, matrix, meshes[k]))
    ensures UnionUpTo(host, matrix, meshes, n).Some? ==> ContainsBox(c, UnionUpTo(host, matrix, meshes, n).value)
  {
    if n > 0 {
      UnionUpToLeast(host, matrix, meshes, n - 1, c);
      var prev := UnionUpTo(host, matrix, meshes, n - 1);
      if prev.Some? && HasGeometry(meshes[n - 1]) {
        UnionIsLeast(prev.value, MeshWorldBox(host, matrix, meshes[n - 1]), c);
      }
    }
  }

  /** There is no world box exactly when `meshes` is undefined or no mesh has geometry. */
  lemma WorldBoxNone(host: Host, model: Model3d)
    ensures WorldBox(host, model).None? <==>
              model.meshes.None? || forall k :: 0 <= k < |model.meshes.value| ==> !HasGeometry(model.meshes.value[k])
  {
    if model.meshes.Some? {
      UnionUpToNone(host, model.matrix, model.meshes.value, |model.meshes.value|);
    }
  }

  /**
   * The world box is the smallest box holding the transformed bounds of every mesh with geometry: it
   * holds each of them, and any box holding each of them holds it.
   */
  lemma WorldBoxIsLeastCover(host: Host, model: Model3d, c: Box3)
    requires WorldBox(host, model).Some?
    ensures forall k :: 0 <= k < |model.meshes.value| && HasGeometry(model.meshes.value[k]) ==>
              ContainsBox(WorldBox(host, model).value, MeshWorldBox(host, model.matrix, model.meshes.value[k]))
    ensures (forall k :: 0 <= k < |model.meshes.value| && HasGeometry(model.meshes.value[k]) ==>
               ContainsBox(c, MeshWorldBox(host, model.matrix, model.meshes.value[k]))) ==>
            ContainsBox(c, WorldBox(host, model).value)
  {
    var meshes := model.meshes.value;
    UnionUpToCovers(host, model.matrix, meshes, |meshes|);
    if forall k :: 0 <= k < |meshes| && HasGeometry(meshes[k]) ==> ContainsBox(c, MeshWorldBox(host, model.matrix, meshes[k])) {
      UnionUpToLeast(host, model.matrix, meshes, |meshes|, c);
    }
  }

  /** `getWorldBoundingBox` of the live variant: the loop that copies the first world box and adds the others. */
  method GetWorldBoundingBox(host: Host, model: Model3d) returns (r: Option<Box3>)
    ensures r == WorldBox(host, model)
  {
    if model.meshes.None? {
      return None;
    }
    var meshes := model.meshes.value;
    var box := ZeroBox;
    var initialized := false;
    var i := 0;
    while i < |meshes|
      invariant 0 <= i <= |meshes|
      invariant UnionUpTo(host, model.matrix, meshes, i) == if initialized then Some(box) else None
    {
      var geometry := meshes[i].geometry;
      if geometry.Some? {
        var worldBounds := host.transformed(geometry.value.bounds, model.matrix);
        if !initialized {
          box := worldBounds;
          initialized := true;
        } else {
          box := Union(box, worldBounds);
        }
      }
      i := i + 1;
    }
    if !initialized {
      return None;
    }
    return Some(box);
  }

  /**
   * `getWorldBoundingBox` of the second variant: the same loop, with `[0, 0, 0, 0, 0, 0]` where the
   * live variant returns `undefined`.
   */
  method GetWorldBoundingBoxV2(host: Host, model: Model3d) returns (r: Box3)
    ensures r == WorldBox(host, model).GetOr(ZeroBox)
  {
    var box := GetWorldBoundingBox(host, model);
    r := box.GetOr(ZeroBox);
  }

  /**
   * A model of the second variant without meshes, or whose meshes all lack geometry, overlaps nothing,
   * whatever the other box: the zero box fails the strict test.
   */
  lemma EmptyModelV2OverlapsNothing(host: Host, model: Model3d, other: Box3)
    requires model.meshes.None? || forall k :: 0 <= k < |model.meshes.value| ==> !HasGeometry(model.meshes.value[k])
    ensures ComputeIntersectionBox(WorldBox(host, model).GetOr(ZeroBox), other) == None
    ensures ComputeIntersectionBox(other, WorldBox(host, model).GetOr(ZeroBox)) == None
  {
    WorldBoxNone(host, model);
    ZeroBoxNeverOverlaps(other);
  }

  /**
   * `getWorldBoundingBox` of the third variant: the first mesh's bounds, or the zero box when that mesh
   * or its geometry is missing, transformed by the matrix. `Object.values(undefined)` throws a
   * `TypeError` when `meshes` is undefined.
   */
  function WorldBoxV3(host: Host, model: Model3d): (r: Result<Box3>)
    ensures r.Err? <==> model.meshes.None?
    ensures r.Ok? && |model.meshes.value| > 0 && HasGeometry(model.meshes.value[0]) ==>
              r.value == MeshWorldBox(host, model.matrix, model.meshes.value[0])
    ensures r.Ok? && (|model.meshes.value| == 0 || !HasGeometry(model.meshes.value[0])) ==>
              r.value == host.transformed(ZeroBox, model.matrix)
  {
    match model.meshes
    case None => Err(TypeError)
    case Some(meshes) =>
      var localBounds := if |meshes| > 0 && meshes[0].geometry.Some? then meshes[0].geometry.value.bounds else ZeroBox;
      Ok(host.transformed(localBounds, model.matrix))
  }

  /**
   * The third variant's box ignores every mesh after the first: two models that differ only there get
   * the same box.
   */
  lemma WorldBoxV3OnlyFirstMesh(host: Host, model: Model3d, rest: seq<Mesh>)
    requires model.meshes.Some? && |model.meshes.value| > 0
    ensures WorldBoxV3(host, Model3d(Some([model.meshes.value[0]] + rest), model.matrix)) == WorldBoxV3(host, model)
  {
  }

  // ---------------------------------------------------------------------------------------------------
  // Candidate triangles.

  predicate Searchable(m: Mesh) {
    m.geometry.Some? && m.geometry.value.spatial.Some?
  }

  /** `intersectionBoxWorld` mapped into the model's local frame by the inverse matrix. */
  function LocalBox(host: Host, matrix: Mat4, box: Box3): Box3 {
    host.transformed(box, host.inverse(matrix))
  }

  /** The indices `walkBox` visits in a searchable mesh. */
  function Visited(host: Host, m: Mesh, localBox: Box3): seq<int>
    requires Searchable(m)
  {
    host.walkBox(m.geometry.value.spatial.value, localBox)
  }

  /** One candidate per visited index of the mesh, in visit order. */
  function MeshCandidates(host: Host, m: Mesh, localBox: Box3): (r: seq<MeshTriangle>)
    ensures |r| == if Searchable(m) then |Visited(host, m, localBox)| else 0
    ensures Searchable(m) ==> forall k :: 0 <= k < |r| ==> r[k] == MeshTriangle(m, Visited(host, m, localBox)[k])
  {
    if !Searchable(m) then [] else Tagged(m, Visited(host, m, localBox))
  }

  /** `{ mesh, triangleIndex }` for each index, in order. */
  function Tagged(m: Mesh, indices: seq<int>): (r: seq<MeshTriangle>)
    ensures |r| == |indices|
    ensures forall k :: 0 <= k < |r| ==> r[k] == MeshTriangle(m, indices[k])
  {
    if indices == [] then [] else Tagged(m, indices[..|indices| - 1]) + [MeshTriangle(m, indices[|indices| - 1])]
  }

  /** The candidates of the first `n` meshes: their per-mesh candidates, in mesh order. */
  function CandidatesUpTo(host: Host, meshes: seq<Mesh>, localBox: Box3, n: nat): seq<MeshTriangle>
    requires n <= |meshes|
  {
    if n == 0 then [] else CandidatesUpTo(host, meshes, localBox, n - 1) + MeshCandidates(host, meshes[n - 1], localBox)
  }

  /** `getCandidateTriangles(model, intersectionBoxWorld)`; every caller has already seen `meshes` defined. */
  function Candidates(host: Host, model: Model3d, box: Box3): seq<MeshTriangle>
    requires model.meshes.Some?
  {
    CandidatesUpTo(host, model.meshes.value, LocalBox(host, model.matrix, box), |model.meshes.value|)
  }

  /**
   * Every candidate names a searchable mesh of the model and an index that mesh's `walkBox` visits,
   * and meshes without geometry or without a spatial index contribute nothing.
   */
  lemma {:induction false} CandidatesUpToSound(host: Host, meshes: seq<Mesh>, localBox: Box3, n: nat)
    requires n <= |meshes|
    ensures forall c :: c in CandidatesUpTo(host, meshes, localBox, n) ==>
              c.mesh in meshes[..n] && Searchable(c.mesh) && c.triangleIndex in Visited(host, c.mesh, localBox)
  {
    if n > 0 {
      CandidatesUpToSound(host, meshes, localBox, n - 1);
      var m := meshes[n - 1];
      assert meshes[..n] == meshes[..n - 1] + [m];
      forall c | c in MeshCandidates(host, m, localBox)
        ensures c.mesh in meshes[..n] && Searchable(c.mesh) && c.triangleIndex in Visited(host, c.mesh, localBox)
      {
        var k :| 0 <= k < |MeshCandidates(host, m, localBox)| && MeshCandidates(host, m, localBox)[k] == c;
        assert c == MeshTriangle(m, Visited(host, m, localBox)[k]);
      }
    }
  }

  /** The number of candidates: the number of visited indices, summed over the searchable meshes. */
  function VisitCount(host: Host, meshes: seq<Mesh>, localBox: Box3, n: nat): nat
    requires n <= |meshes|
  {
    if n == 0 then 0
    else VisitCount(host, meshes, localBox, n - 1) + (if Searchable(meshes[n - 1]) then |Visited(host, meshes[n - 1], localBox)| else 0)
  }

  lemma {:induction false} CandidatesUpToCount(host: Host, meshes: seq<Mesh>, localBox: Box3, n: nat)
    requires n <= |meshes|
    ensures |CandidatesUpTo(host, meshes, localBox, n)| == VisitCount(host, meshes, localBox, n)
  {
    if n > 0 {
      CandidatesUpToCount(host, meshes, localBox, n - 1);
    }
  }

  /** The inner loop of `getCandidateTriangles`: push `{ mesh, triangleIndex }` for each visited index. */
  method PushAll(candidates: seq<MeshTriangle>, mesh: Mesh, triangleIndices: seq<int>) returns (r: seq<MeshTriangle>)
    ensures r == candidates + Tagged(mesh, triangleIndices)
  {
    r := candidates;
    var k := 0;
    while k < |triangleIndices|
      invariant 0 <= k <= |triangleIndices|
      invariant r == candidates + Tagged(mesh, triangleIndices[..k])
    {
      assert triangleIndices[..k + 1][..k] == triangleIndices[..k];
      r := r + [MeshTriangle(mesh, triangleIndices[k])];
      k := k + 1;
    }
    assert triangleIndices[..k] == triangleIndices;
  }

  /** `getCandidateTriangles`: the loop over meshes, pushing one candidate per visited index. */
  method GetCandidateTriangles(host: Host, model: Model3d, intersectionBoxWorld: Box3)
    returns (candidates: seq<MeshTriangle>)
    requires model.meshes.Some?
    ensures candidates == Candidates(host, model, intersectionBoxWorld)
  {
    var meshes := model.meshes.value;
    var intersectionBoxLocal := LocalBox(host, model.matrix, intersectionBoxWorld);
    candidates := [];
    var i := 0;
    while i < |meshes|
      invariant 0 <= i <= |meshes|
      invariant candidates == CandidatesUpTo(host, meshes, intersectionBoxLocal, i)
    {
      var mesh := meshes[i];
      assert CandidatesUpTo(host, meshes, intersectionBoxLocal, i + 1) ==
             candidates + MeshCandidates(host, mesh, intersectionBoxLocal);
      if mesh.geometry.Some? && mesh.geometry.value.spatial.Some? {
        var triangleIndices := host.walkBox(mesh.geometry.value.spatial.value, intersectionBoxLocal);
        assert MeshCandidates(host, mesh, intersectionBoxLocal) == Tagged(mesh, triangleIndices);
        candidates := PushAll(candidates, mesh, triangleIndices);
      } else {
        assert MeshCandidates(host, mesh, intersectionBoxLocal) == [];
      }
      i := i + 1;
    }
  }

  // ---------------------------------------------------------------------------------------------------
  // Triangle vertices.

  /** What `getTriangleVertices` yields: three vertices, vertices with a NaN coordinate, or the throw. */
  datatype Fetch = Fetched(t: Triangle) | NaNVertices | Unsupported

  const TwoTo32: int := 0x1_0000_0000

  /** `ToUint32` on an integer: the value modulo 2^32, as `new Uint32Array(indices)` stores it. */
  function ToUint32(x: int): (r: int)
    ensures 0 <= r < TwoTo32 && (r - x) % TwoTo32 == 0
    ensures 0 <= x < TwoTo32 ==> r == x
  {
    x % TwoTo32
  }

  function ToUint32All(xs: seq<int>): (r: seq<int>)
    ensures |r| == |xs| && forall k :: 0 <= k < |xs| ==> r[k] == ToUint32(xs[k])
  {
    if xs == [] then [] else [ToUint32(xs[0])] + ToUint32All(xs[1..])
  }

  /** The index values a variant reads: as stored, converted to `Uint32`, or the unsupported-type error. */
  function IndexValues(variant: Variant, buf: IndexBuffer): Result<seq<int>> {
    match variant
    case Live => Ok(buf.values)
    case V2 => if buf.kind == OtherKind then Err(UnsupportedIndexType) else Ok(buf.values)
    case V3 => if buf.kind == Uint32 then Ok(buf.values) else Ok(ToUint32All(buf.values))
  }

  /** `indices[k]`, `undefined` outside the buffer. */
  function IndexAt(values: seq<int>, k: int): Option<int> {
    if 0 <= k < |values| then Some(values[k]) else None
  }

  /** `[vertices[3i], vertices[3i + 1], vertices[3i + 2]]`; any missing coordinate makes the vertex NaN. */
  function VertexAt(vertices: seq<real>, i: Option<int>): Option<Vec3> {
    if i.Some? && 0 <= 3 * i.value && 3 * i.value + 2 < |vertices| then
      Some(Vec3(vertices[3 * i.value], vertices[3 * i.value + 1], vertices[3 * i.value + 2]))
    else None
  }

  /** `getTriangleVertices(geometry, triangleIndex)` of each variant. */
  function TriangleVertices(variant: Variant, geometry: Option<MeshGeometry>, triangleIndex: int): Fetch {
    if geometry.None? || geometry.value.indices.None? || geometry.value.vertices.None? then Fetched(ZeroTriangle)
    else
      match IndexValues(variant, geometry.value.indices.value)
      case Err(_) => Unsupported
      case Ok(indices) =>
        var vertices := geometry.value.vertices.value;
        var v0 := VertexAt(vertices, IndexAt(indices, triangleIndex * 3));
        var v1 := VertexAt(vertices, IndexAt(indices, triangleIndex * 3 + 1));
        var v2 := VertexAt(vertices, IndexAt(indices, triangleIndex * 3 + 2));
        if v0.Some? && v1.Some? && v2.Some? then Fetched(Triangle(v0.value, v1.value, v2.value)) else NaNVertices
  }

  /** Missing geometry, indices or vertices give the zero triangle in every variant. */
  lemma MissingDataGivesZeroTriangle(variant: Variant, geometry: Option<MeshGeometry>, triangleIndex: int)
    requires geometry.None? || geometry.value.indices.None? || geometry.value.vertices.None?
    ensures TriangleVertices(variant, geometry, triangleIndex) == Fetched(ZeroTriangle)
  {
  }

  /** Vertex number `i` has its three floats inside the buffer. */
  predicate VertexInRange(vertices: seq<real>, i: int) {
    0 <= i && 3 * i + 2 < |vertices|
  }

  /**
   * With complete data and every read in range, the triangle's vertex `j` is the vertex whose number is
   * index `3 triangleIndex + j`, read from the three floats at three times that number.
   */
  lemma InRangeReadsVertices(variant: Variant, g: MeshGeometry, triangleIndex: int, indices: seq<int>)
    requires g.indices.Some? && g.vertices.Some? && IndexValues(variant, g.indices.value) == Ok(indices)
    requires 0 <= 3 * triangleIndex && 3 * triangleIndex + 2 < |indices|
    requires VertexInRange(g.vertices.value, indices[3 * triangleIndex])
    requires VertexInRange(g.vertices.value, indices[3 * triangleIndex + 1])
    requires VertexInRange(g.vertices.value, indices[3 * triangleIndex + 2])
    ensures var vs, i0, i1, i2 := g.vertices.value, indices[3 * triangleIndex], indices[3 * triangleIndex + 1], indices[3 * triangleIndex + 2];
            TriangleVertices(variant, Some(g), triangleIndex) ==
              Fetched(Triangle(Vec3(vs[3 * i0], vs[3 * i0 + 1], vs[3 * i0 + 2]),
                               Vec3(vs[3 * i1], vs[3 * i1 + 1], vs[3 * i1 + 2]),
                               Vec3(vs[3 * i2], vs[3 * i2 + 1], vs[3 * i2 + 2])))
  {
  }

  /** An index triple past the end of the buffer reads `undefined` and gives NaN vertices. */
  lemma IndexPastEndGivesNaN(variant: Variant, g: MeshGeometry, triangleIndex: int, indices: seq<int>)
    requires g.indices.Some? && g.vertices.Some? && IndexValues(variant, g.indices.value) == Ok(indices)
    requires 3 * triangleIndex + 2 >= |indices| || triangleIndex < 0
    ensures TriangleVertices(variant, Some(g), triangleIndex) == NaNVertices
  {
  }

  /** Only the second variant can throw, and it throws exactly on an index type other than the three unsigned ones. */
  lemma UnsupportedOnlyInV2(variant: Variant, geometry: Option<MeshGeometry>, triangleIndex: int)
    ensures TriangleVertices(variant, geometry, triangleIndex) == Unsupported <==>
              variant == V2 && geometry.Some? && geometry.value.indices.Some? && geometry.value.vertices.Some? &&
              geometry.value.indices.value.kind == OtherKind
  {
  }

  /**
   * The variants read the same triangle from an unsigned buffer whose values fit in 32 bits: the
   * third variant's conversion changes nothing there.
   */
  lemma VariantsAgreeOnUnsignedIndices(geometry: Option<MeshGeometry>, triangleIndex: int)
    requires geometry.Some? && geometry.value.indices.Some? ==>
               geometry.value.indices.value.kind != OtherKind &&
               forall k :: 0 <= k < |geometry.value.indices.value.values| ==> 0 <= geometry.value.indices.value.values[k] < TwoTo32
    ensures TriangleVertices(V2, geometry, triangleIndex) == TriangleVertices(Live, geometry, triangleIndex)
    ensures TriangleVertices(V3, geometry, triangleIndex) == TriangleVertices(Live, geometry, triangleIndex)
  {
    if geometry.Some? && geometry.value.indices.Some? {
      var vs := geometry.value.indices.value.values;
      assert ToUint32All(vs) == vs;
    }
  }

  /** The third variant wraps a negative index to a large unsigned one, where the others read `undefined`. */
  lemma V3WrapsNegativeIndex()
    ensures ToUint32(-1) == 0xFFFF_FFFF
  {
  }
}
