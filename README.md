# RoburIntercept clash detection, modelled in Dafny

RoburIntercept is a CAD plug-in that looks for clashes between 3D model bodies. Each body is a
`DwgModel3d`: a list of triangle meshes and a placement matrix. The plug-in has four parts.

**The intersection engine.** It exists in three variants:
- `IntersectionFinder3` in `src/interceptor3.ts` is the live one.
- `IntersectionFinder2` in `src/interceptorv2.ts` and the older `IntersectionFinder3` in
  `src/interceptorv3.ts` are earlier variants.

Each variant works in stages:
1. The world bounding box of each model.
2. The strict overlap of the two boxes.
3. The candidate triangles that the host's spatial index yields inside the overlap.
4. A nested sweep over the candidate pairs. Each pair is intersected as follows:
   - the plane of each triangle is computed;
   - the edge crossings with the other triangle's plane are kept when they lie inside the other
     triangle, by a barycentric test;
   - the crossings are deduplicated within 1e-6;
   - the furthest pair of the remaining points is chosen;
   - that pair is accepted when both endpoints and their midpoint lie inside both triangles.

**The annotation anchor** (`LineSegmentProcessor`, `src/centroid.ts`). It takes the centre of the
box around all segment endpoints if a segment accepts that centre. Otherwise it takes the nearest
clamped projection of the centre onto a segment.

**The construction registry** (`ConstructionHelper`, `src/constructions.ts`). It holds:
- the distinct construction types of a list of models;
- a list of unordered construction pairs, with add, remove and a membership query.

**Mesh-buffer decoding** (`Selector`, `src/selector.ts`). It chunks flat float arrays into vertices,
assembles triangles from index triples, and collects the meshes of selected entities.

## How the model is built

Coordinates are `real`, so every sign test, ratio and comparison is exact. The source compares
distances or scales by positive factors, so distances and vector lengths are replaced by their squares.

The host library's matrix, box, plane and spatial-index operations are the fields of the datatype
`Meshes.Host`. They are functions the model calls but knows nothing about:
- `box3.transformed`
- `mat4.inverse`
- `mat4.mulv3`
- `SpatialIndex.walkBox`
- `plane3.make3pt`

One shared model covers the three variants. A `Meshes.Variant` (`Live`, `V2`, `V3`) pins their
differences:
- **Planes.** The live variant uses the host's `plane3.make3pt`; the others use `getPlaneFromTriangle`.
- **Deduplication.** The second variant's deduplication is the identity.
- **World box.** Each variant builds it differently: `Meshes.GetWorldBoundingBox`,
  `Meshes.GetWorldBoundingBoxV2`, `Meshes.WorldBoxV3`.
- **Index buffers.** The second variant throws on an unsupported index type. The third variant
  converts every buffer to `Uint32Array`.

JavaScript's `undefined` and NaN are modelled explicitly:
- An array read past its end is `None`.
- A triangle with such a vertex is `Meshes.NaNVertices`. It can never yield a segment, because every
  comparison with NaN is false.
- A throw is an `Err` of `Common.Result` (`TypeError`, `UnsupportedIndexType`, `NoLinesProvided`).

Files:
- `common.dfy`: `Option`, `Result`, the error kinds.
- `geometry.dfy`: vectors, boxes, triangles, segments and planes.
- `barycentric.dfy`: the point-in-triangle tests.
- `boxes.dfy`: overlap and union of boxes.
- `meshes.dfy`: models, world boxes, candidates and triangle reads.
- `crossings.dfy`: edge–plane crossings and planes of triangles.
- `dedup.dfy`: `removeDuplicatePoints`.
- `furthest.dfy`: `findFurthestPoints`.
- `trianglepair.dfy`: `intersectTriangles` and `isValidIntersection`.
- `engine.dfy`: the sweep and the entry points.
- `centroid.dfy`, `constructions.dfy`, `selector.dfy`, `interceptor.dfy`: the other classes.

The loops of the source are methods with loop invariants, each proved equal to a function that
specifies it. What the source promises is proved about those functions. `ConstructionHelper` and
`LineSegmentProcessor` are classes with the source's fields.

## Model

| member | source | states |
|---|---|---|
| Geometry.DistSq | src/interceptor3.ts:213 | the squared distance replacing `vec3.distance` is never negative |
| Geometry.NearSymmetric | src/interceptor3.ts:227 | the 1e-6 closeness test of deduplication is symmetric |
| Barycentric.DenominatorIsCrossNorm | src/interceptor3.ts:259-264 | `dot00·dot11 − dot01²` is the squared norm of `(b−a)×(c−a)`, so it is never negative |
| Barycentric.DenominatorOfPoint | src/interceptor3.ts:256-264 | the denominator depends only on the triangle, not on the point tested |
| Barycentric.DegenerateRejects | src/interceptor3.ts:264-267 | a triangle whose edges have a zero cross product accepts no point |
| Barycentric.CoordinatesOfPointAt | src/interceptor3.ts:256-266 | for a non-degenerate triangle, `u` and `v` of the point `a + u(b−a) + v(c−a)` are exactly `u` and `v` |
| Barycentric.InsideIffInSimplex | src/interceptor3.ts:254-268 | for a non-degenerate triangle, `isPointInsideTriangle` accepts `a + u(b−a) + v(c−a)` iff `u ≥ 0`, `v ≥ 0` and `u + v ≤ 1` |
| Barycentric.VerticesInside | src/interceptor3.ts:254-268 | a non-degenerate triangle accepts each of its three vertices |
| Barycentric.MidpointInside | src/interceptor3.ts:254-268 | the accepted region is convex: the midpoint of two accepted points is accepted |
| Barycentric.Vec3Sub | src/interceptorv3.ts:290-294 | `a + (−b)` is `a − b`, and adding `b` back gives `a` |
| Barycentric.InsideV3Agrees | src/interceptorv3.ts:195-224 | the third variant's test, built on `vec3Sub`, accepts exactly the points the live test accepts |
| Barycentric.SwappedCoordinates | src/interceptor.ts:42-53 | swapping the two edges of the basis swaps `u` and `v`, and keeps the degenerate case degenerate |
| Barycentric.SwappedUV | src/interceptor.ts:46-54 | with the edges swapped the denominator is unchanged and `u`, `v` trade places |
| Barycentric.PointInTriangleAgrees | src/interceptor.ts:38-54 | `isPointInTriangle` (basis `(c−a, b−a)`) accepts exactly the points `isPointInsideTriangle` (basis `(b−a, c−a)`) accepts |
| Boxes.ComputeIntersectionBox | src/interceptor3.ts:76-89 | a returned box lies inside both inputs and has positive extent on all three axes |
| Boxes.OverlapIsGreatest | src/interceptor3.ts:76-89 | every box with volume inside both inputs makes the result defined and lies inside it: the result is the componentwise max of mins and min of maxes |
| Boxes.TouchingBoxesDoNotOverlap | src/interceptor3.ts:84-88 | boxes that touch or are apart on some axis give `undefined`, in either order |
| Boxes.OverlapCommutes | src/interceptor3.ts:77-85 | the overlap does not depend on the order of the two boxes |
| Boxes.ZeroBoxNeverOverlaps | src/interceptorv2.ts:226-271 | the zero box `[0,0,0,0,0,0]` overlaps no box under the strict test |
| Boxes.Union | src/interceptor3.ts:65 | `addBox` gives a box holding both boxes |
| Boxes.UnionIsLeast | src/interceptor3.ts:65 | every box holding both boxes holds their union |
| Boxes.PointBox | src/centroid.ts:24 | `box3.make(box, p, p)` holds `p` |
| Boxes.AddPoint | src/centroid.ts:27-29 | `addPoint` gives a box holding the point and the old box |
| Boxes.Center | src/centroid.ts:32 | the centre of a well-formed box lies in the box |
| Meshes.UnionUpToNone | src/interceptor3.ts:55-72 | the accumulation stays uninitialised exactly when no mesh so far has geometry |
| Meshes.UnionUpToCovers | src/interceptor3.ts:55-68 | the accumulated box holds the world box of every geometry-bearing mesh so far |
| Meshes.UnionUpToLeast | src/interceptor3.ts:55-68 | every box holding those world boxes holds the accumulated box |
| Meshes.WorldBoxNone | src/interceptor3.ts:47-74 | the live world box is `undefined` exactly when `meshes` is undefined or no mesh has geometry |
| Meshes.WorldBoxIsLeastCover | src/interceptor3.ts:47-74 | otherwise it is the smallest box holding the transformed bounds of every geometry-bearing mesh |
| Meshes.GetWorldBoundingBox | src/interceptor3.ts:47-74 | the loop with `box` and `initialized` computes the live world box |
| Meshes.GetWorldBoundingBoxV2 | src/interceptorv2.ts:226-252 | the second variant's loop computes the same box, or the zero box where the live one is `undefined` |
| Meshes.EmptyModelV2OverlapsNothing | src/interceptorv2.ts:226-271 | in the second variant a model without meshes or without geometry overlaps no box |
| Meshes.WorldBoxV3 | src/interceptorv3.ts:57-60 | the third variant throws on undefined `meshes`, transforms the first mesh's bounds when it has geometry, and otherwise transforms the zero box |
| Meshes.WorldBoxV3OnlyFirstMesh | src/interceptorv3.ts:58 | the meshes after the first do not affect the third variant's world box |
| Meshes.MeshCandidates | src/interceptor3.ts:96-104 | a mesh with geometry and a spatial index yields one candidate per visited index, in visit order; any other mesh yields none |
| Meshes.Tagged | src/interceptor3.ts:100-102 | the inner push loop tags each visited index with its mesh, in order |
| Meshes.CandidatesUpToSound | src/interceptor3.ts:91-106 | every candidate names a searchable mesh of the model and an index its `walkBox` visited |
| Meshes.CandidatesUpToCount | src/interceptor3.ts:91-106 | the number of candidates is the total number of visits over searchable meshes |
| Meshes.PushAll | src/interceptor3.ts:99-102 | the push loop appends the tagged indices to the candidates |
| Meshes.GetCandidateTriangles | src/interceptor3.ts:91-106 | the candidate loop computes the candidate list, meshes in order, then visit order |
| Meshes.ToUint32 | src/interceptorv3.ts:150 | `new Uint32Array` stores an index modulo 2^32 and leaves an index already in range unchanged |
| Meshes.ToUint32All | src/interceptorv3.ts:150 | the conversion of a whole buffer converts each entry |
| Meshes.MissingDataGivesZeroTriangle | src/interceptor3.ts:155-158 | missing geometry, indices or vertices give the zero triangle in every variant |
| Meshes.InRangeReadsVertices | src/interceptor3.ts:160-170 | with every read in range, vertex `j` is read from `vertices[3i..3i+2]`, where `i = indices[3k+j]` |
| Meshes.IndexPastEndGivesNaN | src/interceptor3.ts:162-170 | an index triple past the end of the buffer gives NaN vertices |
| Meshes.UnsupportedOnlyInV2 | src/interceptorv2.ts:369-378 | only the second variant throws, and exactly for an index type other than Uint8, Uint16 and Uint32 |
| Meshes.VariantsAgreeOnUnsignedIndices | src/interceptorv2.ts:369-392 | for unsigned buffers with values below 2^32 all three variants read the same triangle |
| Meshes.V3WrapsNegativeIndex | src/interceptorv3.ts:150 | the third variant's conversion wraps −1 to 2^32 − 1 |
| Crossings.EdgeCrossingOnPlane | src/interceptor3.ts:237-245 | an edge yields a point iff `da·db < 0`; the point is `a + t(b−a)` with `t = da/(da−db)` strictly between 0 and 1, and it lies on the plane |
| Crossings.CrossingsUpTo | src/interceptor3.ts:234-250 | after `n` edges there are at most `n` points, each on the plane and inside the other triangle |
| Crossings.Crossings | src/interceptor3.ts:232-252 | at most 3 points, each on the plane and inside the other triangle |
| Crossings.GetIntersections | src/interceptor3.ts:232-252 | the edge loop pushes exactly those crossings, edge by edge |
| Crossings.EdgeCrossingScaleInvariant | src/interceptorv2.ts:470-478 | scaling the plane by a positive factor leaves every edge crossing unchanged |
| Crossings.CrossingsScaleInvariant | src/interceptorv2.ts:465-485 | so the `normalize` of the normal changes none of the crossings |
| Crossings.NormalizedIsScaled | src/interceptorv2.ts:425-434 | the normalised plane is the unnormalised one scaled by the positive factor |
| Crossings.PlaneContainsVertices | src/interceptorv2.ts:425-434 | all three vertices satisfy `n·v + d = 0` for `n = (t1−t0)×(t2−t0)` and `d = −n·t0` |
| Crossings.DegeneratePlaneHasNoCrossings | src/interceptorv2.ts:465-485 | the zero plane of a degenerate triangle yields no crossing |
| Dedup.FindNearFrom | src/interceptor3.ts:227 | `findIndex` finds the first index within the tolerance, or −1 when there is none |
| Dedup.KeptIndices | src/interceptor3.ts:226-228 | the kept indices are increasing, each kept, and include every kept index |
| Dedup.NearReflexive | src/interceptor3.ts:227 | every point is within the tolerance of itself |
| Dedup.KeptIffNoEarlierNear | src/interceptor3.ts:226-228 | the point at `i` survives iff no earlier point is within 1e-6 of it |
| Dedup.RemoveDuplicatePointsIsSubsequence | src/interceptor3.ts:224-230 | the result is the input at the kept indices, in order |
| Dedup.RemoveDuplicatePointsFromInput | src/interceptor3.ts:224-230 | every point of the result is a point of the input |
| Dedup.FirstPointKept | src/interceptor3.ts:224-230 | the first point is always kept, and comes first |
| Dedup.ResultSeparated | src/interceptor3.ts:224-230 | no kept point is within 1e-6 of an earlier kept point |
| Dedup.SeparatedUnchanged | src/interceptorv3.ts:284-289 | an input whose points are already separated is returned unchanged |
| Dedup.RemoveDuplicatePointsIdempotent | src/interceptor3.ts:224-230 | deduplicating twice gives the same result as once |
| Dedup.V2AgreesOnSeparated | src/interceptorv2.ts:535-541 | the second variant's identity agrees with the filter on separated inputs |
| Dedup.ExactDuplicateDropped | src/interceptor3.ts:224-230 | inserting an exact copy of `ps[i]` at any position after `i` in a separated list yields that list back: the copy, and nothing else, is removed, so the result has one element fewer |
| Dedup.RepeatedPointCollapses | src/interceptor3.ts:224-230 | the two-element list `[p, p]` comes out as `[p]`, where the second variant's identity keeps both copies |
| Furthest.FurthestIsMaximal | src/interceptor3.ts:207-222 | for any non-negative measure, the scan ends with the maximum over all pairs `i < j` and the first pair reaching it, or with no pair when the maximum is 0 |
| Furthest.FurthestPairCorrect | src/interceptor3.ts:207-222 | the chosen pair has maximal distance, and no pair is chosen iff all pairwise distances are 0 |
| Furthest.FindFurthestPoints | src/interceptor3.ts:207-222 | the double loop returns the points of that pair, or null and null |
| TrianglePair.DeduplicateKeepsInputPoints | src/interceptor3.ts:180 | either deduplication returns points of its input only |
| TrianglePair.ValidIffEndpointsInside | src/interceptor3.ts:194-205 | `isValidIntersection` holds iff both endpoints lie inside both triangles; the midpoint checks never reject on their own |
| TrianglePair.CandidatePoints | src/interceptor3.ts:178-180 | at most 6 points, each on a plane and inside the triangle of that plane |
| TrianglePair.IntersectionSound | src/interceptor3.ts:174-192 | a returned segment has distinct endpoints taken from the crossings, on one of the planes, inside both triangles with their midpoint, and is the furthest pair of the deduplicated points |
| TrianglePair.NoSegmentWithoutDistinctPoints | src/interceptor3.ts:182-191 | fewer than two points, or points all at distance 0, give null |
| TrianglePair.DegenerateTriangleGivesNothing | src/interceptorv2.ts:401-434 | a degenerate first triangle, with its zero plane, never yields a segment |
| Engine.RowErrPersists | src/interceptorv2.ts:339-353 | once the inner loop has thrown, later triangles change nothing |
| Engine.SweepErrPersists | src/interceptorv2.ts:329-354 | once the sweep has thrown, later triangles change nothing |
| Engine.RowErrIff | src/interceptorv2.ts:339-353 | the inner loop throws iff one of its triangles has an unsupported index type |
| Engine.SweepErrIff | src/interceptorv2.ts:319-356 | the sweep throws iff an outer triangle it reaches, or an inner triangle of a non-empty sweep, has an unsupported index type |
| Engine.UnsupportedOnlyInV2World | src/interceptor3.ts:155-171 | outside the second variant no world triangle is a throw |
| Engine.SweepNeverFailsOutsideV2 | src/interceptor3.ts:116-153 | the live and third sweeps never throw |
| Engine.RowBound | src/interceptor3.ts:136-150 | the inner loop adds at most one segment per inner triangle |
| Engine.SweepBound | src/interceptor3.ts:116-153 | at most `|triangles1|·|triangles2|` segments |
| Engine.RowFromPairs | src/interceptor3.ts:136-150 | every segment of the inner loop comes from some inner candidate |
| Engine.SweepFromPairs | src/interceptor3.ts:126-151 | every segment is `intersectTriangles` of the world-transformed vertices of one candidate pair |
| Engine.RowComplete | src/interceptor3.ts:136-150 | conversely, when the inner loop does not throw, the segment of every inner candidate is in its row |
| Engine.SweepComplete | src/interceptor3.ts:126-151 | conversely, when the sweep does not throw, the segment of every candidate pair is in it |
| Engine.PairLineSound | src/interceptor3.ts:146-149 | a pair's segment has distinct endpoints that pass `isValidIntersection` for both world triangles; a NaN triangle yields nothing |
| Engine.IntersectRow | src/interceptor3.ts:136-150 | the inner loop computes the row of segments for one outer triangle |
| Engine.SweepRows | src/interceptor3.ts:126-152 | the outer loop, with any pair function, computes the sweep: the rows concatenated in order, or the first throw |
| Engine.ComputeTriangleIntersections | src/interceptor3.ts:116-153 | the nested loops compute the segments in nested-loop order, outer over `triangles1` |
| Engine.FindIntersection | src/interceptor3.ts:14-45 | `findIntersection` returns the early `false`s for a missing box, no overlap or no segment, and otherwise `true` |
| Engine.FindsIntersectionWitness | src/interceptor3.ts:14-45 | `true` means both boxes exist, they overlap, and some candidate pair yields a segment with distinct endpoints |
| Engine.FindsIntersectionIff | src/interceptor3.ts:14-45 | `findIntersection` is `true` exactly when both world boxes exist, they overlap, and some candidate pair of the overlap yields a segment with distinct endpoints |
| Engine.NoGeometryFindsNothing | src/interceptor3.ts:15-21 | a model without meshes, or without geometry, intersects nothing, in either position |
| Engine.SeparatedBoxesFindNothing | src/interceptor3.ts:23-25 | world boxes that touch or are apart on some axis give `false` |
| Engine.CreateIntersectionModelV2 | src/interceptorv2.ts:34-89 | the method returns the second variant's answer or throw: zero boxes for empty models, the strict overlap, the candidates, the sweep, and `true` iff it yields a segment |
| Engine.NoGeometryV2IsFalse | src/interceptorv2.ts:37-50 | in the second variant a model without geometry gives `false`, never a throw |
| Engine.IntersectsV2Errors | src/interceptorv2.ts:34-66 | the second variant throws only `UnsupportedIndexType`, and only when the boxes overlap and the sweep reaches such a triangle |
| Engine.RowErrorIsUnsupported | src/interceptorv2.ts:376-378 | any throw of the second variant's sweep is the unsupported-index-type error |
| Engine.RowErrorUnsupported | src/interceptorv2.ts:376-378 | any throw of the second variant's inner loop is that error |
| Engine.LineVertices | src/interceptorv2.ts:553-557 | `6n` vertex floats for `n` lines |
| Engine.Count | src/interceptorv2.ts:555-556 | the indices are `0, 1, …, n−1` |
| Engine.LineVerticesRoundTrip | src/interceptorv2.ts:553-557 | reading the floats back six at a time gives each line's `a` and `b`, in order |
| Engine.CreateGeometryFromIntersectionLines | src/interceptorv2.ts:548-566 | the loop produces the floats `a.xyz, b.xyz` per line, which read back as the lines, and the indices `0 … 2n−1` |
| Engine.CreateIntersectionModelV3 | src/interceptorv3.ts:18-37 | the method returns the line geometry of every segment of the third variant's sweep, the empty geometry when the boxes do not overlap, and a `TypeError` when a model has no `meshes` |
| Engine.IntersectionModelV3Shape | src/interceptorv3.ts:18-37 | it throws exactly when a model has no `meshes`; otherwise there are three floats per index and the indices count up from 0 |
| Centroid.ClosestPointOnLineSegment | src/centroid.ts:66-79 | a zero-length segment yields no point, because the source divides 0 by 0 |
| Centroid.ClosestIsClampedLerp | src/centroid.ts:66-79 | for a segment of positive length the result is `a + t(b−a)` with `t` the projection clamped to `[0, 1]`: `a` when `proj ≤ 0`, `b` when `proj ≥ 1` |
| Centroid.LerpIsOnSegment | src/centroid.ts:55-64 | every point `a + t(b−a)` with `0 ≤ t ≤ 1` passes `isPointOnLineSegment` |
| Centroid.ClosestIsClosest | src/centroid.ts:66-79 | for a segment of positive length the result lies on the segment and is no further from the point than any point of the segment |
| Centroid.OnSegmentProjectsInside | src/centroid.ts:55-69 | a point accepted by `isPointOnLineSegment` projects between 0 and 1 |
| Centroid.ZeroLengthAcceptsAll | src/centroid.ts:55-64 | a zero-length segment accepts every point |
| Centroid.EndpointBoxIsTight | src/centroid.ts:20-30 | the box holds every `a` and `b` endpoint, and lies inside any box that does |
| Centroid.NearestUpToIsMinimal | src/centroid.ts:40-50 | the fallback point is `lines[0].a` or a closest point, and is no further than `lines[0].a` or than any closest point it saw |
| Centroid.CenterOrNearestErrIff | src/centroid.ts:16-18 | the call throws "No lines provided" exactly on an empty list |
| Centroid.CenterChosenWhenOnSegment | src/centroid.ts:20-38 | the centre is the midpoint of the tightest endpoint box, and it is returned when a segment accepts it |
| Centroid.FallbackIsNearest | src/centroid.ts:40-52 | otherwise the anchor is as near to the centre as any point of any segment of positive length |
| Centroid.AnchorIsOnSomeSegment | src/centroid.ts:34-52 | the anchor always passes `isPointOnLineSegment` for some segment |
| Centroid.SingleSegmentAnchorsAtMidpoint | src/centroid.ts:20-38 | a single segment from `a` to `b` is anchored at its midpoint, e.g. (1,0,0) for (0,0,0)–(2,0,0) |
| Centroid.LineSegmentProcessor.constructor | src/centroid.ts:11-13 | the processor stores the lines it is given |
| Centroid.LineSegmentProcessor.FindCenterOrNearestPoint | src/centroid.ts:15-53 | the `forEach` loops and the early return compute the anchor, or the throw |
| Constructions.SeenIsKeys | src/constructions.ts:44-48 | the `seen` set holds exactly the keys of the types pushed |
| Constructions.KeysDistinct | src/constructions.ts:44-48 | the pushed types have pairwise different keys |
| Constructions.ListedKeySeen | src/constructions.ts:41-48 | the key of every model with an id and a name is in `seen` |
| Constructions.TypesFromModels | src/constructions.ts:37-50 | every pushed type is the `(id, name)` of some model |
| Constructions.TypesByKeyNoDuplicates | src/constructions.ts:37-50 | the list as written has no duplicate entries |
| Constructions.DistinctTypesFromModels | src/constructions.ts:37-50 | every entry of the intended list is the `(id, name)` of some model |
| Constructions.DistinctTypesListsAll | src/constructions.ts:37-50 | every model with an id and a name has its type in the intended list |
| Constructions.DistinctTypesNoDuplicates | src/constructions.ts:37-50 | the intended list has no duplicates |
| Constructions.DistinctTypesFirstSeenOrder | src/constructions.ts:37-50 | the intended list is in first-seen order |
| Constructions.DistinctTypesExact | src/constructions.ts:37-50 | the intended list holds exactly one entry per distinct `(id, name)`, skipping null ids and names, in first-seen order |
| Constructions.KeyInjective | src/constructions.ts:44 | with no `\|` in the ids, equal keys mean equal types |
| Constructions.ScanAgreesWithoutBar | src/constructions.ts:37-50 | with no `\|` in any id, each step of the loop as written matches the intended list |
| Constructions.TypesByKeyAgreesWithoutBar | src/constructions.ts:37-50 | with no `\|` in any id, the list as written is the intended list |
| Constructions.KeyCollisionDropsType | src/constructions.ts:44-46 | `("a\|b","c")` and `("a","b\|c")` share the key `a\|b\|c`, so the list as written drops the second type |
| Constructions.AddPair | src/constructions.ts:83-99 | the pair is appended only when no existing pair equals it in either orientation; afterwards such a pair is present |
| Constructions.AddPairKeepsDistinct | src/constructions.ts:83-99 | adding keeps the list free of equivalent pairs |
| Constructions.AddPairIdempotent | src/constructions.ts:83-99 | adding the same pair again, or its reverse, changes nothing |
| Constructions.RemovePair | src/constructions.ts:107-114 | the result holds exactly the old pairs other than the argument in the same orientation |
| Constructions.RemovePairAppend | src/constructions.ts:107-114 | removal keeps the other pairs in their order |
| Constructions.RemoveAbsentPair | src/constructions.ts:107-114 | removing an absent pair changes nothing |
| Constructions.ReversedPairStays | src/constructions.ts:107-114 | the reversed pair survives the removal |
| Constructions.RemovePairKeepsDistinct | src/constructions.ts:107-114 | removal keeps the list free of equivalent pairs |
| Constructions.AddThenRemove | src/constructions.ts:83-114 | adding a new pair and removing it restores the list |
| Constructions.IdAndName | src/constructions.ts:53-57 | a model counts only with an id and a name that are both non-empty |
| Constructions.AnyMatch | src/constructions.ts:69-72 | `some` finds a pair iff one matches the two types in either orientation |
| Constructions.PairAllowedIff | src/constructions.ts:52-75 | `false` without id and name on both models; otherwise `true` iff no pair is registered or one matches in either orientation |
| Constructions.PairAllowedSymmetric | src/constructions.ts:69-72 | the query is symmetric in the two models |
| Constructions.AddedPairAllowed | src/constructions.ts:52-99 | after adding their pair, in either orientation, the two models are allowed |
| Constructions.RemovedPairNotAllowed | src/constructions.ts:52-114 | after removing their only pair, the two models are no longer allowed while other pairs remain |
| Constructions.EmptyIdListedButNeverAllowed | src/constructions.ts:41-57 | an empty id is listed by `BuildConstructionTypes` and rejected by `hasConstructionPairFromModels` |
| Constructions.ConstructionHelper.constructor | src/constructions.ts:27-28 | both lists start empty |
| Constructions.ConstructionHelper.BuildConstructionTypes | src/constructions.ts:37-50 | the `for` loop with the string set `seen` rebuilds the field as `TypesByKey`, the first type of each joined key `${id}\|${name}`; when no id contains `\|` that is one entry per distinct `(id, name)` in first-seen order (`DistinctTypes`); the pairs are untouched, so `Valid()` holds afterwards exactly when it held before |
| Constructions.ConstructionHelper.HasConstructionPairFromModels | src/constructions.ts:52-75 | `true` iff both models have a truthy id and name and either no pair is registered or one matches in either orientation |
| Constructions.ConstructionHelper.AddConstructionPair | src/constructions.ts:83-99 | the pairs become the list with the pair added, and stay free of equivalent pairs |
| Constructions.ConstructionHelper.RemoveConstructionPair | src/constructions.ts:107-114 | the pairs are filtered as `removeConstructionPair` does, and stay free of equivalent pairs |
| Constructions.ConstructionHelper.GetConstructions | src/constructions.ts:103-105 | returns the current types |
| Constructions.ConstructionHelper.GetConstructionPairs | src/constructions.ts:119-121 | returns the current pairs |
| Selector.Chunks | src/selector.ts:58-64 | ⌈n/3⌉ entries for `n` floats |
| Selector.ConvertToVec3Array | src/selector.ts:58-64 | the loop returns ⌈n/3⌉ entries, entry `k` being `(f[3k], f[3k+1], f[3k+2])` |
| Selector.ChunkComplete | src/selector.ts:60-62 | only the last entry can be short, and only when `n` is not a multiple of 3 |
| Selector.ChunkIsVertex | src/selector.ts:58-64 | entry `k` is the vertex the engine reads as vertex `k` |
| Selector.TriangleList | src/selector.ts:77-85 | one triangle per started index triple |
| Selector.TrianglesUpToShape | src/selector.ts:66-90 | the call throws iff a geometry-bearing mesh lacks a buffer; otherwise it yields ⌈\|indices\|/3⌉ triangles per geometry-bearing mesh |
| Selector.TrianglesUpToOrder | src/selector.ts:69-88 | each mesh's triangles follow those of earlier meshes |
| Selector.SelectorAgreesWithEngine | src/selector.ts:77-85 | a triangle with all reads in range carries the three vertices the engine reads for it |
| Selector.PushMeshTriangles | src/selector.ts:77-85 | the index loop appends the mesh's triangles |
| Selector.GetTrianglesFromModel3d | src/selector.ts:66-90 | the `forEach` computes the model's triangles in mesh order, then index order, or the throw |
| Selector.TrianglesAfterErr | src/selector.ts:69-88 | once a mesh throws, later meshes change nothing |
| Selector.GetTrianglesFromEntity | src/selector.ts:92-102 | `[]` for an entity without `meshes`, and exactly the model's triangles otherwise |
| Selector.PolygonsMembers | src/selector.ts:41-56 | a mesh is collected iff some entity with `meshes` holds it |
| Selector.PolygonsAppend | src/selector.ts:41-56 | the meshes are collected entity by entity, in order |
| Selector.GetPolygonsFromSelectedEntities | src/selector.ts:41-56 | the nested loops collect the meshes of every model entity, in order |
| Interceptor.Intersect | src/interceptor.ts:2-35 | the result is empty whatever the inputs |
| Interceptor.InTriangleAcceptsVertices | src/interceptor.ts:38-54 | a non-degenerate triangle accepts its three vertices |
| Interceptor.InTriangleDegenerateRejects | src/interceptor.ts:49-53 | a zero denominator rejects every point |
| Interceptor.InTriangleIffInSimplex | src/interceptor.ts:38-54 | for a non-degenerate triangle, acceptance of `a + u(b−a) + v(c−a)` iff `u ≥ 0`, `v ≥ 0` and `u + v ≤ 1` |

## Left out

- Floating point: coordinates are exact reals. Rounding is absent, so `removeDuplicatePoints`' tolerance and the on-plane property hold exactly, which IEEE-754 does not guarantee.
- NaN and Infinity: a zero barycentric denominator yields `false`, which is what the JavaScript comparisons with Infinity or NaN give. A vertex read past a buffer is a NaN triangle that contributes nothing. NaN is not carried through arithmetic.
- Square roots: `vec3.distance` and `vec3.len` are replaced by squared quantities. The order of comparisons is unchanged.
- `normalize` in `getPlaneFromTriangle`: it is replaced by `Crossings.NormalizedPlaneFromTriangle` with an arbitrary positive factor. `Crossings.CrossingsScaleInvariant` shows the factor changes nothing. The zero-vector case of `normalize` is the zero plane.
- Host operations: `box3.transformed`, `mat4.inverse`, `mat4.mulv3`, `plane3.make3pt` and `SpatialIndex.walkBox` are arbitrary functions in `Meshes.Host`. Nothing is assumed of them. `getTrianglesInBox` is the sequence `walkBox` visits.
- `Math3d.geometry.calculateNormals` and the `normals` array of `createGeometryFromIntersectionLines` are not visible; the model keeps only the vertices and indices.
- The model-building part of the third variant's `createIntersectionModel` (src/interceptorv3.ts:39-53) is left out. This covers the drawing, `createUuidGeometry3d`, `addMesh` and `geometries.add`. `createEmptyDwgModel3d` becomes the empty line geometry.
- Other host side effects are left out: `addAnnotation`, drawing as lines or polylines, and the commented-out annotation code.
- Async code is modelled as sequential.
- `src/diagnostic/interceptRule.ts`, `src/main.ts`, `src/diagnostic/props.ts`, `src/annotation.ts`, `src/panel.ts` and `src/helpers.ts` are UI, orchestration or type glue, and are not part of this model. `findIntersection2` and `projectedDistance`, which `interceptRule.ts` calls, are not defined in any file shown.
- `Selector.getSelectedDwgEntities` and `isDwgEntity` are host selection glue. An entity is modelled as a `Model3d` whose `meshes` may be absent.
- Meshes.GetCandidateTriangles: requires `meshes` to be defined, where the source would throw a `TypeError` from `Object.values(undefined)`. Every variant reaches this call only after its world box exists, and that implies defined `meshes`.
- Centroid.FallbackIsNearest: covers segments of positive length only. On a zero-length segment the source computes `0/0`, and the comparison with the NaN distance never replaces the best point.
- Centroid.ClosestPointOnLineSegment: returns `None` for a zero-length segment, where the source returns a NaN vector.
- Centroid.SingleSegmentAnchorsAtMidpoint: proved for every segment `a`–`b` with the anchor `Lerp(a, b, 0.5)`. The instance (0,0,0)–(2,0,0) ↦ (1,0,0) is not restated with literal coordinates.
- Selector.GetTrianglesFromEntity: the source's `push(...triangles)` can throw a `RangeError` on very long lists; the model has no such limit.
- Meshes with a null entry in `model.meshes` are not modelled; every mesh is an object.
- ConstructionHelper.GetConstructions, ConstructionHelper.GetConstructionPairs: the source returns the helper's own arrays by reference, and `addConstructionPair` stores the caller's pair object itself. The model returns `seq` values, so it does not show this aliasing. In the source, a caller's in-place `sort` of `getConstructions()` (as `src/diagnostic/props.ts` does) reorders the helper's `constructions` out of first-seen order. A `push` onto `getConstructionPairs()` can add an equivalent pair and break the no-equivalent-pairs invariant `Valid()`.
- Engine.IntersectionModelV3Shape: states the shape of the geometry but not the round trip; the round trip of the floats is `Engine.LineVerticesRoundTrip`.

## Findings

| source | as written | input that shows it | evidently intended | confidence | as-written member | corrected member |
|---|---|---|---|---|---|---|
| src/constructions.ts:44 | the seen-key is the string `${id}\|${name}`, which is not injective when an id or name contains `\|` | models with `(id, name)` = `("a\|b", "c")` and `("a", "b\|c")`: both keys are `a\|b\|c`, so only the first type is listed | one entry per distinct `(id, name)` pair, as the method's doc comment says | medium, not executed | Constructions.KeyCollisionDropsType | Constructions.DistinctTypesExact |

`ConstructionHelper.BuildConstructionTypes` keeps the loop as written, with the joined string keys, so it
computes `TypesByKey`. `DistinctTypes`, keyed by the `(id, name)` pair itself, is the corrected list, and
`Constructions.DistinctTypesExact` proves it holds one entry per distinct type. The method also ensures
its result is `DistinctTypes` whenever no id contains `|`, which `Constructions.TypesByKeyAgreesWithoutBar`
proves.
