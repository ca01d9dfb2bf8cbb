/**
 * `Selector`: decoding a mesh's flat buffers into vertices and index triples, collecting the meshes of
 * the selected entities, and the triangles of a model.
 *
 * A JavaScript array read past its end gives `undefined`; here such a read is `None`, and a vertex
 * built from three reads keeps each of them.
 */
module Selector {
  import opened Common
  import opened Geometry
  import opened Meshes

  /** The array `[f[i], f[i + 1], f[i + 2]]` that `convertToVec3Array` pushes; an entry past the end is `undefined`. */
  datatype Vec3Entry = Vec3Entry(x: Option<real>, y: Option<real>, z: Option<real>)

  /** A vertex whose three coordinates are all present. */
  function Full(v: Vec3): Vec3Entry {
    Vec3Entry(Some(v.x), Some(v.y), Some(v.z))
  }

  /** `floatArray[i]`. */
  function FloatAt(f: seq<real>, i: int): Option<real> {
    if 0 <= i < |f| then Some(f[i]) else None
  }

  /** Entry `k` of the vertex array: the floats at `3k`, `3k + 1` and `3k + 2`. */
  function ChunkAt(f: seq<real>, k: int): Vec3Entry {
    Vec3Entry(FloatAt(f, 3 * k), FloatAt(f, 3 * k + 1), FloatAt(f, 3 * k + 2))
  }

  /** The vertex array of a float buffer: one entry per started group of three floats. */
  function Chunks(f: seq<real>): (r: seq<Vec3Entry>)
    ensures |r| == (|f| + 2) / 3
  {
    seq((|f| + 2) / 3, k => ChunkAt(f, k))
  }

  /**
   * `convertToVec3Array(floatArray)`: one entry for every `i = 0, 3, 6, …` below the length, holding
   * the three floats from `i`.
   */
  method ConvertToVec3Array(floatArray: seq<real>) returns (vec3Array: seq<Vec3Entry>)
    ensures |vec3Array| == (|floatArray| + 2) / 3
    ensures forall k :: 0 <= k < |vec3Array| ==> vec3Array[k] == ChunkAt(floatArray, k)
  {
    vec3Array := [];
    var i := 0;
    while i < |floatArray|
      invariant 0 <= i && i % 3 == 0 && i <= |floatArray| + 2
      invariant |vec3Array| == i / 3
      invariant forall k :: 0 <= k < |vec3Array| ==> vec3Array[k] == ChunkAt(floatArray, k)
      decreases |floatArray| - i
    {
      vec3Array := vec3Array + [Vec3Entry(FloatAt(floatArray, i), FloatAt(floatArray, i + 1), FloatAt(floatArray, i + 2))];
      i := i + 3;
    }
  }

  /** An entry is complete exactly when its last float is inside the buffer; only the last entry can be incomplete. */
  lemma ChunkComplete(f: seq<real>, k: int)
    requires 0 <= k < (|f| + 2) / 3
    ensures ChunkAt(f, k).z.Some? <==> 3 * k + 2 < |f|
    ensures ChunkAt(f, k).x.Some? && (ChunkAt(f, k).z.None? ==> k == (|f| + 2) / 3 - 1 && |f| % 3 != 0)
  {
  }

  /** A complete entry is the vertex `VertexAt` reads for the same vertex number. */
  lemma ChunkIsVertex(f: seq<real>, k: int)
    requires VertexInRange(f, k)
    ensures k < |Chunks(f)| && Chunks(f)[k] == Full(VertexAt(f, Some(k)).value)
  {
  }

  // ---------------------------------------------------------------------------------------------------
  // Triangles

  /** The array `[vec3Vertices[indices[i]], vec3Vertices[indices[i + 1]], vec3Vertices[indices[i + 2]]]`. */
  datatype TriangleEntry = TriangleEntry(a: Option<Vec3Entry>, b: Option<Vec3Entry>, c: Option<Vec3Entry>)

  /** `vec3Vertices[i]`, `undefined` for an undefined index or one outside the array. */
  function EntryAt(entries: seq<Vec3Entry>, i: Option<int>): Option<Vec3Entry> {
    if i.Some? && 0 <= i.value < |entries| then Some(entries[i.value]) else None
  }

  /** The triangle pushed for `i = 3t`. */
  function TriangleAt(entries: seq<Vec3Entry>, indices: seq<int>, t: int): TriangleEntry {
    TriangleEntry(EntryAt(entries, IndexAt(indices, 3 * t)),
                  EntryAt(entries, IndexAt(indices, 3 * t + 1)),
                  EntryAt(entries, IndexAt(indices, 3 * t + 2)))
  }

  /** The triangles of one mesh's buffers: one for every started index triple. */
  function TriangleList(entries: seq<Vec3Entry>, indices: seq<int>): (r: seq<TriangleEntry>)
    ensures |r| == (|indices| + 2) / 3
  {
    seq((|indices| + 2) / 3, t => TriangleAt(entries, indices, t))
  }

  /**
   * What one mesh contributes: nothing without geometry; the `TypeError` of reading `length` of an
   * undefined vertex or index buffer; otherwise its triangles.
   */
  function MeshTriangles(m: Mesh): Result<seq<TriangleEntry>> {
    if m.geometry.None? then Ok([])
    else if m.geometry.value.vertices.None? || m.geometry.value.indices.None? then Err(TypeError)
    else Ok(TriangleList(Chunks(m.geometry.value.vertices.value), m.geometry.value.indices.value.values))
  }

  /** The `forEach` over the first `n` meshes: the triangles in mesh order, or the first throw. */
  function TrianglesUpTo(meshes: seq<Mesh>, n: nat): Result<seq<TriangleEntry>>
    requires n <= |meshes|
  {
    if n == 0 then Ok([])
    else
      match TrianglesUpTo(meshes, n - 1)
      case Err(e) => Err(e)
      case Ok(ts) =>
        match MeshTriangles(meshes[n - 1])
        case Err(e) => Err(e)
        case Ok(more) => Ok(ts + more)
  }

  /** `getTrianglesFromModel3d(model3d)`; `Object.values(undefined)` throws a `TypeError`. */
  function TrianglesOfModel(model: Model3d): Result<seq<TriangleEntry>> {
    if model.meshes.None? then Err(TypeError) else TrianglesUpTo(model.meshes.value, |model.meshes.value|)
  }

  /** The number of triangles of the geometry-bearing meshes among the first `n`. */
  function TriangleCount(meshes: seq<Mesh>, n: nat): nat
    requires n <= |meshes|
  {
    if n == 0 then 0
    else
      var m := meshes[n - 1];
      TriangleCount(meshes, n - 1) +
        (if m.geometry.Some? && m.geometry.value.indices.Some? then (|m.geometry.value.indices.value.values| + 2) / 3 else 0)
  }

  /**
   * The call fails exactly when some geometry-bearing mesh lacks its vertex or index buffer; otherwise
   * it yields a started index triple's worth of triangles per mesh with geometry, and none for the others.
   */
  lemma {:induction false} TrianglesUpToShape(meshes: seq<Mesh>, n: nat)
    requires n <= |meshes|
    ensures TrianglesUpTo(meshes, n).Err? <==>
              exists k :: 0 <= k < n && meshes[k].geometry.Some? &&
                (meshes[k].geometry.value.vertices.None? || meshes[k].geometry.value.indices.None?)
    ensures TrianglesUpTo(meshes, n).Ok? ==> |TrianglesUpTo(meshes, n).value| == TriangleCount(meshes, n)
  {
    if n > 0 {
      TrianglesUpToShape(meshes, n - 1);
    }
  }

  /** The triangles of a mesh come after those of the meshes before it, and before those after it. */
  lemma {:induction false} TrianglesUpToOrder(meshes: seq<Mesh>, n: nat, k: nat)
    requires k < n <= |meshes| && TrianglesUpTo(meshes, n).Ok?
    ensures TrianglesUpTo(meshes, k).Ok? && MeshTriangles(meshes[k]).Ok?
    ensures var before := TrianglesUpTo(meshes, k).value;
            var mine := MeshTriangles(meshes[k]).value;
            before + mine <= TrianglesUpTo(meshes, n).value
  {
    if k < n - 1 {
      TrianglesUpToOrder(meshes, n - 1, k);
    }
  }

  /**
   * A triangle whose index triple and vertices are all inside their buffers carries exactly the three
   * vertices the engine reads for the same triangle.
   */
  lemma SelectorAgreesWithEngine(g: MeshGeometry, t: int)
    requires g.vertices.Some? && g.indices.Some?
    requires var idx := g.indices.value.values;
             0 <= 3 * t && 3 * t + 2 < |idx| &&
             VertexInRange(g.vertices.value, idx[3 * t]) && VertexInRange(g.vertices.value, idx[3 * t + 1]) &&
             VertexInRange(g.vertices.value, idx[3 * t + 2])
    ensures TriangleVertices(Live, Some(g), t).Fetched?
    ensures var tri := TriangleVertices(Live, Some(g), t).t;
            TriangleAt(Chunks(g.vertices.value), g.indices.value.values, t) ==
              TriangleEntry(Some(Full(tri.a)), Some(Full(tri.b)), Some(Full(tri.c)))
  {
    var vs, idx := g.vertices.value, g.indices.value.values;
    InRangeReadsVertices(Live, g, t, idx);
    ChunkIsVertex(vs, idx[3 * t]);
    ChunkIsVertex(vs, idx[3 * t + 1]);
    ChunkIsVertex(vs, idx[3 * t + 2]);
  }

  /** The inner loop over one mesh's index triples: appends that mesh's triangles to `triangles`. */
  method PushMeshTriangles(triangles: seq<TriangleEntry>, vec3Vertices: seq<Vec3Entry>, indices: seq<int>)
    returns (r: seq<TriangleEntry>)
    ensures r == triangles + TriangleList(vec3Vertices, indices)
  {
    r := triangles;
    var i := 0;
    while i < |indices|
      invariant 0 <= i && i % 3 == 0 && i <= |indices| + 2
      invariant |r| == |triangles| + i / 3
      invariant r[..|triangles|] == triangles
      invariant forall t :: 0 <= t < i / 3 ==> r[|triangles| + t] == TriangleAt(vec3Vertices, indices, t)
      decreases |indices| - i
    {
      var triangle := TriangleEntry(EntryAt(vec3Vertices, IndexAt(indices, i)),
                                    EntryAt(vec3Vertices, IndexAt(indices, i + 1)),
                                    EntryAt(vec3Vertices, IndexAt(indices, i + 2)));
      assert triangle == TriangleAt(vec3Vertices, indices, i / 3);
      r := r + [triangle];
      i := i + 3;
    }
    assert r == triangles + TriangleList(vec3Vertices, indices);
  }

  /** `getTrianglesFromModel3d(model3d)`: the triangles of every geometry-bearing mesh, in order. */
  method GetTrianglesFromModel3d(model3d: Model3d) returns (r: Result<seq<TriangleEntry>>)
    ensures r == TrianglesOfModel(model3d)
  {
    if model3d.meshes.None? {
      return Err(TypeError);
    }
    var meshes := model3d.meshes.value;
    var triangles: seq<TriangleEntry> := [];
    for n := 0 to |meshes|
      invariant TrianglesUpTo(meshes, n) == Ok(triangles)
    {
      var mesh := meshes[n];
      if mesh.geometry.Some? {
        var geometry := mesh.geometry.value;
        if geometry.vertices.None? || geometry.indices.None? {
          assert TrianglesUpTo(meshes, n + 1) == Err(TypeError);
          TrianglesAfterErr(meshes, n + 1, |meshes|);
          return Err(TypeError);
        }
        var vec3Vertices := ConvertToVec3Array(geometry.vertices.value);
        assert vec3Vertices == Chunks(geometry.vertices.value);
        var more := TriangleList(vec3Vertices, geometry.indices.value.values);
        assert MeshTriangles(mesh) == Ok(more);
        triangles := PushMeshTriangles(triangles, vec3Vertices, geometry.indices.value.values);
        assert TrianglesUpTo(meshes, n + 1) == Ok(triangles);
      } else {
        assert triangles + [] == triangles;
      }
    }
    return Ok(triangles);
  }

  /** Once a mesh has thrown, the later meshes are not reached. */
  lemma {:induction false} TrianglesAfterErr(meshes: seq<Mesh>, n: nat, m: nat)
    requires n <= m <= |meshes| && TrianglesUpTo(meshes, n).Err?
    ensures TrianglesUpTo(meshes, m) == TrianglesUpTo(meshes, n)
  {
    if m > n {
      TrianglesAfterErr(meshes, n, m - 1);
    }
  }

  // ---------------------------------------------------------------------------------------------------
  // Entities

  /** `isDwgModel3d(entity)`: the entity has a defined `meshes` field. */
  predicate IsDwgModel3d(entity: Model3d) {
    entity.meshes.Some?
  }

  /** `getTrianglesFromEntity(entity)`: nothing for an entity that is not a model, else its model triangles. */
  method GetTrianglesFromEntity(entity: Model3d) returns (r: Result<seq<TriangleEntry>>)
    ensures !IsDwgModel3d(entity) ==> r == Ok([])
    ensures IsDwgModel3d(entity) ==> r == TrianglesOfModel(entity)
    ensures IsDwgModel3d(entity) && r.Ok? ==> |r.value| == TriangleCount(entity.meshes.value, |entity.meshes.value|)
  {
    var allTriangles: seq<TriangleEntry> := [];
    if IsDwgModel3d(entity) {
      var triangles := GetTrianglesFromModel3d(entity);
      TrianglesUpToShape(entity.meshes.value, |entity.meshes.value|);
      if triangles.Err? {
        return triangles;
      }
      allTriangles := allTriangles + triangles.value;
      assert allTriangles == triangles.value;
    }
    return Ok(allTriangles);
  }

  /** The meshes a single entity contributes. */
  function MeshesOf(entity: Model3d): seq<Mesh> {
    if IsDwgModel3d(entity) then entity.meshes.value else []
  }

  /** The meshes of the entities, entity by entity. */
  function Polygons(entities: seq<Model3d>): seq<Mesh> {
    if entities == [] then [] else Polygons(entities[..|entities| - 1]) + MeshesOf(entities[|entities| - 1])
  }

  /** A mesh is collected exactly when some model entity holds it. */
  lemma {:induction false} PolygonsMembers(entities: seq<Model3d>, m: Mesh)
    ensures m in Polygons(entities) <==>
              exists k :: 0 <= k < |entities| && IsDwgModel3d(entities[k]) && m in entities[k].meshes.value
  {
    if entities != [] {
      var init := entities[..|entities| - 1];
      PolygonsMembers(init, m);
      if exists k :: 0 <= k < |init| && IsDwgModel3d(init[k]) && m in init[k].meshes.value {
        var k :| 0 <= k < |init| && IsDwgModel3d(init[k]) && m in init[k].meshes.value;
        assert entities[k] == init[k];
      }
      if exists k :: 0 <= k < |entities| && IsDwgModel3d(entities[k]) && m in entities[k].meshes.value {
        var k :| 0 <= k < |entities| && IsDwgModel3d(entities[k]) && m in entities[k].meshes.value;
        if k < |init| {
          assert entities[k] == init[k];
        }
      }
    }
  }

  /** The collected meshes of a sequence of entities are those of its parts, in order. */
  lemma {:induction false} PolygonsAppend(entities: seq<Model3d>, more: seq<Model3d>)
    ensures Polygons(entities + more) == Polygons(entities) + Polygons(more)
  {
    if more == [] {
      assert entities + more == entities;
    } else {
      var init := more[..|more| - 1];
      assert (entities + more)[..|entities + more| - 1] == entities + init;
      PolygonsAppend(entities, init);
    }
  }

  /** `getPolygonsFromSelectedEntities(entities)`: every mesh of every model entity, in order. */
  method GetPolygonsFromSelectedEntities(entities: seq<Model3d>) returns (polygons: seq<Mesh>)
    ensures polygons == Polygons(entities)
  {
    polygons := [];
    for n := 0 to |entities|
      invariant polygons == Polygons(entities[..n])
    {
      assert entities[..n + 1][..n] == entities[..n];
      var entity := entities[n];
      if IsDwgModel3d(entity) {
        var meshes := entity.meshes.value;
        for j := 0 to |meshes|
          invariant polygons == Polygons(entities[..n]) + meshes[..j]
        {
          polygons := polygons + [meshes[j]];
          assert meshes[..j + 1] == meshes[..j] + [meshes[j]];
        }
        assert meshes[..|meshes|] == meshes;
      }
    }
    assert entities[..|entities|] == entities;
  }
}
