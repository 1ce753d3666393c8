# Model exporter: mesh conversion, bounding spheres and the mesh-data blob

This project models the core of a command-line model exporter. The exporter
reads a 3-D scene through Assimp and writes two files. One is a binary blob
(`meshdata.bin`) holding every mesh's vertex array followed by its index
array. The other is a Lua scene description that records, for every mesh,
where its arrays sit in the blob. The model covers the parts of
`src/Exporter.cpp` and `src/ExportedVertexFormat.h` that decide what goes
into the blob and into those records:

- `aiVertexToExportVertex` reformats one imported vertex into the export
  vertex format.
- `ConvertMesh` optionally moves a mesh so that the centre of its bounding
  sphere is at the origin. It then reformats the vertices, measures the
  largest distance from the origin and flattens the faces into an index list.
- `FindCenterOfBoundingSphere` and `SphereOfSphereAndPt` compute Ritter's
  bounding sphere, with the iterative refinement of Ericson's *Real-Time
  Collision Detection*. The refinement draws from one shared random
  generator.
- `ConvertAndExportMeshes` converts the meshes in order and writes each
  one's regions to the stream. It keeps a running `uint32_t` file offset and
  produces one `ExportMesh` record per mesh.
- `GetMaterials` and `GetTexture` build the material table: the shininess
  defaulting rule and texture paths with `\` turned into `/`.

Modules:

| file | module | contents |
|---|---|---|
| `wrappers.dfy` | `Wrappers` | `Option` |
| `geometry.dfy` | `Geometry` | vectors over the reals, dot product, a square-root oracle, the algebra behind the sphere growth step |
| `vertex_format.dfy` | `VertexFormat` | `ExportVertex`, `IndexType`, `uint32_t` wrap-around, and the byte layout of vertex and index arrays as 4-byte cells with their decoders |
| `bounding_sphere.dfy` | `BoundingSphere` | the grow step, the extremal-point scan, the seed sphere, the refinement passes, the random generator as a class, and the in-place swapping over an array copy |
| `mesh_converter.dfy` | `MeshConverter` | per-vertex reformatting, the centring offset, the distance from the origin, face flattening, and the reused `ConvertedMesh` buffer as a class |
| `mesh_export.dfy` | `MeshExport` | the stream as a class, the records, the file-offset counter, the blob layout, the round trip from records back to meshes, and the export loop |
| `materials.dfy` | `Materials` | texture paths, the shininess rule and the material table |

Modelling choices:

- Coordinates are reals. Every `sqrt` call goes through a function parameter
  `sqrt` that satisfies `SqrtAt` everywhere: for `x >= 0`, `sqrt(x) >= 0`
  and `sqrt(x)^2 == x`.
- The random source is a function parameter `raw`: `raw(k)` stands for the
  value behind the `k`-th call of a `std::uniform_int_distribution` on the
  `static std::mt19937`, and `UniformPick` brings it into the call's
  interval. How many generator outputs one call consumes is not modelled.
  The generator is shared by every call and every mesh, so it is a
  `Generator` object whose `drawn` counts the distribution calls made so far.
- The blob is a sequence of 4-byte cells: a float or a `uint32_t` index.
- `aiVertexToExportVertex` builds its result in a fresh local `ExportVertex`
  that is never initialised (src/Exporter.cpp:70). A field the mesh has no
  data for is therefore indeterminate. The free parameter `stale` stands for
  those indeterminate values, so nothing is assumed about them.
- The program's `main` (src/main.cpp:16) exports with `MeshesCentered`, so
  every mesh is centred there. The model keeps centring as a parameter.

Notes on the source:

- An `ExportVertex` is 14 floats (position 3, uv 2, normal 3, tangent 3,
  bitangent 3), so 56 bytes. A triangle of three vertices therefore takes
  168 bytes of vertices and 12 bytes of indices, and the next mesh starts at
  180 (`MeshExport.TriangleRecord`, `MeshExport.TriangleExported`).
- Without tangents or texture coordinates, those fields are not zeroed. They
  are indeterminate (`MeshConverter.ToExportVertex`,
  `MeshConverter.MissingTangentsNotZeroed`).
- The exported shininess is never 0, but it is not always positive. A
  negative stored shininess stays negative after division by 4
  (`Materials.ShininessOf`).
- The grow step has no separate zero-distance guard. It divides by the
  distance only when the point is strictly outside a sphere of non-negative
  radius, and then the distance is positive.
- The vertex array is written with the stored, truncated `uint32_t` size.
  The index array is written with its full `size_t` byte count.

## Model

| member | source | states |
|---|---|---|
| VertexFormat.Wrap32 | src/Exporter.cpp:436-445 | a `size_t` stored into a `uint32_t` is the value modulo 2^32; it is exact below 2^32 and never larger than the value |
| VertexFormat.VertexCells | src/ExportedVertexFormat.h:8-15 | one export vertex is 14 float cells |
| VertexFormat.VertexCellsLayout | src/ExportedVertexFormat.h:8-15 | a vertex is 56 bytes, all floats, with position, uv, normal, tangent and bitangent at byte offsets 0, 12, 20, 32 and 44 |
| VertexFormat.DecodeVertexCells | src/ExportedVertexFormat.h:8-15 | decoding a vertex's 14 cells gives the vertex back |
| VertexFormat.VerticesCells | src/Exporter.cpp:440 | a vertex array takes 14 cells per vertex |
| VertexFormat.VerticesCellsFloats | src/Exporter.cpp:440 | every cell of a vertex array is a float |
| VertexFormat.VerticesCellsAt | src/Exporter.cpp:440 | vertex `i` occupies cells `14i` to `14i+14` of the array |
| VertexFormat.DecodeVerticesCells | src/Exporter.cpp:440 | decoding a written vertex array gives the array back |
| VertexFormat.IndicesCells | src/ExportedVertexFormat.h:17 | an index array takes one `uint32_t` cell per index |
| VertexFormat.DecodeIndicesCells | src/ExportedVertexFormat.h:17 | decoding a written index array gives the array back |
| MeshConverter.ToExportVertex | src/Exporter.cpp:68-95 | position and normal are copied; tangent and bitangent are copied exactly when the mesh has both, and uv comes from texture channel 0 exactly when it exists; otherwise those fields are the indeterminate values `stale` stands for |
| MeshConverter.ConvertedVertex | src/Exporter.cpp:246-251 | one vertex reformatted with the centring offset subtracted; its properties are stated by `ConvertedVerticesAt` |
| MeshConverter.FullMeshWritesEveryField | src/Exporter.cpp:68-95 | with tangents and texture coordinates present, the result does not depend on the indeterminate values |
| MeshConverter.MissingTangentsNotZeroed | src/Exporter.cpp:70-78 | without tangents, a vertex whose indeterminate tangent is non-zero does not get a zero tangent |
| MeshConverter.ConvertedVertices | src/Exporter.cpp:244-252 | one output vertex per source vertex |
| MeshConverter.ConvertedVerticesAt | src/Exporter.cpp:246-252 | output vertex `i` is source vertex `i` reformatted, with the centring offset subtracted from its position |
| MeshConverter.NoOffsetKeepsPositions | src/Exporter.cpp:238-251 | without centring, every position is unchanged |
| MeshConverter.CentringOffset | src/Exporter.cpp:238-241 | the offset: the bounding sphere's centre when centring, else the origin; `ConvertShape` and `CentredRadiusWithinSphere` state what it gives |
| MeshConverter.StdMax | src/Exporter.cpp:255 | `std::max` is at least both arguments and equals one of them |
| MeshConverter.MaxDistance | src/Exporter.cpp:236-256 | the running maximum of the distances; its properties are stated by `MaxDistanceIsMaximum` |
| MeshConverter.MaxDistanceIsMaximum | src/Exporter.cpp:236-256 | the running maximum is non-negative and at least every vertex's distance from the origin; for a non-empty mesh it equals one of them |
| MeshConverter.NormWithin | src/Exporter.cpp:254 | a point whose distance from the origin is at most `r` lies in the origin sphere of radius `r` |
| MeshConverter.OriginSphereContainsAll | src/Exporter.cpp:254-268 | the sphere at the origin with the recorded radius contains every output position |
| MeshConverter.FlattenFaces | src/Exporter.cpp:258-265 | the faces' indices in order; its properties are stated by `FlattenFacesLength`, `FlattenFacesAppend` and `FlattenFacesAt` |
| MeshConverter.FlattenFacesLength | src/Exporter.cpp:258-265 | the index count is the sum of the faces' index counts |
| MeshConverter.FlattenFacesAppend | src/Exporter.cpp:258-265 | flattening two face lists one after the other is concatenation |
| MeshConverter.FlattenFacesAt | src/Exporter.cpp:258-265 | index `j` of face `f` sits right after the indices of the faces before `f` |
| MeshConverter.ConvertShape | src/Exporter.cpp:234-269 | a converted mesh has one vertex per source vertex, the faces' index count, the offset as its position (the origin without centring), and a non-negative radius reaching every position |
| MeshConverter.Convert | src/Exporter.cpp:234-269 | the converted mesh as a function; its properties are stated by `ConvertShape`, `OriginSphereContainsAll`, `CentredRadiusWithinSphere` and `TriangleRadius` |
| MeshConverter.OffsetRadiusWithin | src/Exporter.cpp:240-256 | moving the mesh by the centre of a sphere that contains it keeps every position within that sphere's radius of the origin |
| MeshConverter.CentredRadiusWithinSphere | src/Exporter.cpp:240-256 | a centred mesh's radius is at most its bounding sphere's radius |
| MeshConverter.MaxDistanceOfThree | src/Exporter.cpp:246-256 | for three positions the running maximum is `max(max(max(0, a), b), c)` |
| MeshConverter.NormOfSquare | src/Exporter.cpp:254 | a position whose squared length is `a²`, with `a >= 0`, is at distance `a` |
| MeshConverter.TriangleNorms | src/Exporter.cpp:254 | the corners (0,0,0), (1,0,0) and (0,1,0) lie at distances 0, 1 and 1 |
| MeshConverter.TriangleMaxDistance | src/Exporter.cpp:236-256 | the unit right triangle's largest distance from the origin is 1 |
| MeshConverter.TriangleRadius | src/Exporter.cpp:234-269 | the unit right triangle, uncentred, is recorded at the origin with radius exactly 1 |
| MeshConverter.Resize | src/Exporter.cpp:244 | `resize` keeps the prefix and pads with value-initialised vertices |
| MeshConverter.ConvertedMesh.constructor | src/Exporter.cpp:416 | a new converted mesh has empty vertex and index buffers |
| MeshConverter.ConvertedMesh.Clear | src/Exporter.cpp:423-424 | clearing empties both buffers and leaves position and radius alone |
| MeshConverter.ConvertVertices | src/Exporter.cpp:243-256 | the vertex loop leaves the converted vertices in the buffer and returns their largest distance from the origin; the other fields are unchanged |
| MeshConverter.AppendFaceIndices | src/Exporter.cpp:258-265 | the face loop appends the flattened faces to the index buffer and changes nothing else |
| MeshConverter.ConvertMesh | src/Exporter.cpp:234-269 | the buffer ends holding the converted mesh (indices appended to what was there), and the generator has moved by 16·(n−1) draws when centring, else 0 |
| BoundingSphere.SphereOfSphereAndPt | src/Exporter.cpp:111-126 | a sphere that already contains the point is unchanged; the radius never shrinks |
| BoundingSphere.GrowShape | src/Exporter.cpp:118-124 | for a point outside, the new radius is `(r + dist)/2` and the centre moves towards the point by `(newRadius − r)/dist` of the difference |
| BoundingSphere.GrowReachesPoint | src/Exporter.cpp:111-126 | after the step the sphere contains the point, and for a point outside, the point lies on its surface |
| BoundingSphere.GrowOutside | src/Exporter.cpp:118-123 | for a point outside, the radius grows strictly but stays below the point's old distance from the centre |
| BoundingSphere.GrowKeepsContained | src/Exporter.cpp:111-126 | every point the old sphere contained, the grown sphere contains |
| BoundingSphere.ShiftedContains | src/Exporter.cpp:120-124 | moving the centre by `k·d` while growing the radius by `k·|d|` keeps every contained point |
| BoundingSphere.ScanMin | src/Exporter.cpp:149-159 | the minimum scan returns an index among those scanned |
| BoundingSphere.ScanMax | src/Exporter.cpp:149-159 | the maximum scan returns an index among those scanned |
| BoundingSphere.ScanMinIsFirstMin | src/Exporter.cpp:149-159 | the scan's index holds the least coordinate and is the first such index, and it is the only index with both properties |
| BoundingSphere.ScanMaxIsFirstMax | src/Exporter.cpp:149-159 | the scan's index holds the greatest coordinate and is the first such index, and it is the only index with both properties |
| BoundingSphere.ExtremalPoints | src/Exporter.cpp:149-159 | the single loop finds, on each axis, the first minimum and the first maximum |
| BoundingSphere.StrictlyLargestCases | src/Exporter.cpp:161-180 | the y (z) pair is taken exactly when its squared extent strictly exceeds both others |
| BoundingSphere.ChosenAxis | src/Exporter.cpp:170-180 | the y or z pair is chosen only when strictly largest, x exactly when neither is, and x on a y/z tie |
| BoundingSphere.ExtremesOf | src/Exporter.cpp:149-159 | the six scans give indices into the points, each holding the least or greatest coordinate on its axis (`ExtremalPoints` adds that each is the first such index) |
| BoundingSphere.RitterSeed | src/Exporter.cpp:145-191 | the first phase's sphere has a non-negative radius (`RitterSphere` states it is the seed sphere grown over all points) |
| BoundingSphere.SeedSphere | src/Exporter.cpp:183-185 | the seed sphere has a non-negative radius |
| BoundingSphere.GrowOver | src/Exporter.cpp:188-191 | growing over all points never shrinks the radius |
| BoundingSphere.GrowOverContains | src/Exporter.cpp:188-191 | after growing over all points, the sphere contains each of them |
| BoundingSphere.GrowOverKeeps | src/Exporter.cpp:188-191 | growing over points keeps every point the sphere already contained |
| BoundingSphere.GrowAll | src/Exporter.cpp:188-191 | the growth loop computes the grown sphere |
| BoundingSphere.RitterSphere | src/Exporter.cpp:145-191 | the first phase gives the seed sphere grown over all points |
| BoundingSphere.UniformPick | src/Exporter.cpp:210-214 | a uniform draw lies in its closed interval |
| BoundingSphere.Generator.constructor | src/Exporter.cpp:210 | a fresh generator has made no draws |
| BoundingSphere.Generator.Uniform | src/Exporter.cpp:210-214 | one distribution call takes the value behind call number `drawn`, lies in its interval, and advances `drawn` by one |
| BoundingSphere.PassFrom | src/Exporter.cpp:205-220 | a refinement pass never shrinks the working radius and keeps the copy's length |
| BoundingSphere.PassFromProperties | src/Exporter.cpp:205-220 | a pass from position `i` permutes the copy, keeps positions before `i`, and its sphere contains every point from `i` on |
| BoundingSphere.PassFromReorders | src/Exporter.cpp:213-214 | the swaps of a pass permute the copy and leave the positions already visited in place |
| BoundingSphere.PassFromCovers | src/Exporter.cpp:208-220 | the pass's sphere contains every point it visits |
| BoundingSphere.SwapPermutes | src/Exporter.cpp:214 | one swap is a permutation |
| BoundingSphere.PassFromKeeps | src/Exporter.cpp:208-220 | a pass keeps every point its sphere already contained |
| BoundingSphere.Pass | src/Exporter.cpp:205-220 | one pass shrinks the radius by 0.95 first and ends with a non-negative radius |
| BoundingSphere.PermutedContained | src/Exporter.cpp:196-197 | a sphere containing a permutation of the points contains the points |
| BoundingSphere.OnePassProperties | src/Exporter.cpp:203-227 | after one pass the copy is still a permutation of the mesh, and the best sphere kept still contains every vertex |
| BoundingSphere.RefineFromProperties | src/Exporter.cpp:199-228 | the remaining passes end with a sphere that contains every vertex, has a non-negative radius, and is the earlier best or strictly smaller |
| BoundingSphere.RefineFrom | src/Exporter.cpp:199-228 | the remaining refinement passes as a function of the pass count; its properties are stated by `RefineFromProperties`, `RefineFromFixed` and `SingleRefined` |
| BoundingSphere.BoundingSphereContainsAll | src/Exporter.cpp:128-232 | the final sphere contains every vertex and is no larger than the first-phase sphere |
| BoundingSphere.BoundingSphereOf | src/Exporter.cpp:128-232 | the whole computation as a function; its properties are stated by `BoundingSphereContainsAll` and `BoundingSphereOfSingle` |
| BoundingSphere.BoundingSphereOfSingle | src/Exporter.cpp:128-232 | a mesh of one vertex gets that vertex as centre and radius 0, whatever the generator gives |
| BoundingSphere.SingleSeed | src/Exporter.cpp:145-185 | for one vertex, the seed sphere is that vertex with radius 0 |
| BoundingSphere.GrowOverContained | src/Exporter.cpp:188-191 | growing over one point the sphere already contains leaves the sphere unchanged |
| BoundingSphere.SingleGrown | src/Exporter.cpp:145-191 | for one vertex, the first phase gives that vertex with radius 0 |
| BoundingSphere.SinglePass | src/Exporter.cpp:205-220 | for one vertex, a pass (no swaps, one grow step) turns the radius-0 sphere at the vertex back into itself and keeps the copy |
| BoundingSphere.SinglePassesFixed | src/Exporter.cpp:205-220 | for one vertex, every pass, whatever the generator state, is such a fixed point |
| BoundingSphere.RefineFromFixed | src/Exporter.cpp:203-228 | when every pass leaves the sphere and copy unchanged, the remaining iterations return that sphere |
| BoundingSphere.SingleRefined | src/Exporter.cpp:199-228 | for one vertex, the refinement returns the radius-0 sphere at that vertex |
| BoundingSphere.MidpointOfSame | src/Exporter.cpp:183 | (proof helper) the midpoint of a point and itself is the point |
| BoundingSphere.SingleSeedPair | src/Exporter.cpp:149-180 | (proof helper) for one vertex, the seed pair is indices 0 and 0 |
| BoundingSphere.SeedOnSamePoint | src/Exporter.cpp:183-185 | (proof helper) the seed sphere of the pair (0, 0) is centred at the midpoint with radius `sqrt(dc·dc)` |
| BoundingSphere.ZeroRadius | src/Exporter.cpp:185 | (proof helper) the radius of a zero difference is 0 |
| BoundingSphere.RefineFromFixedStep | src/Exporter.cpp:203-228 | (proof helper) an iteration whose pass changes nothing moves to the next iteration with the same sphere |
| BoundingSphere.PassFromStep | src/Exporter.cpp:208-217 | (proof helper) one step of a pass is a swap with a drawn index followed by a grow step |
| BoundingSphere.Swap | src/Exporter.cpp:214 | `std::swap` exchanges the two array entries and changes nothing else |
| BoundingSphere.RefineFromStep | src/Exporter.cpp:203-228 | (proof helper) one iteration keeps the pass's sphere exactly when it is strictly smaller |
| BoundingSphere.SwapAndGrow | src/Exporter.cpp:208-217 | the loop body draws `j` in `[i+1, n−1]` once, swaps `copy[i]` and `copy[j]` in the array, grows the sphere by the new `copy[i]`, and leaves the rest of the pass computing the same result |
| BoundingSphere.RefinePass | src/Exporter.cpp:205-220 | the inner loop leaves the pass's sphere and copy and draws n−1 times |
| BoundingSphere.RefineStep | src/Exporter.cpp:203-228 | one outer iteration shrinks and runs one pass over the array, giving exactly the pass's sphere and copy, and keeps the pass's sphere as best exactly when its radius is strictly smaller |
| BoundingSphere.Refine | src/Exporter.cpp:196-228 | the refinement loop returns the refined sphere and draws 16·(n−1) times |
| BoundingSphere.CopyOf | src/Exporter.cpp:196-197 | the copy is a fresh array holding the vertices |
| BoundingSphere.FindCenterOfBoundingSphere | src/Exporter.cpp:128-232 | returns the centre of the refined sphere and draws 16·(n−1) times |
| MeshExport.MeshDataStream.Write | src/Exporter.cpp:440-444 | a write appends the first `bytes/4` cells of the data |
| MeshExport.RecordOf | src/Exporter.cpp:428-445 | one `ExportMesh` record made at a given offset; its properties are stated by `RecordAt`, `NoWrapRecord` and `TriangleRecord` |
| MeshExport.RecordsPrefix | src/Exporter.cpp:413-447 | one record per converted mesh |
| MeshExport.VertexRegion | src/Exporter.cpp:436-440 | the vertex region is as many bytes as the stored vertex size |
| MeshExport.RecordAt | src/Exporter.cpp:418-447 | record `k` is mesh `k`'s, made at the offset the earlier meshes left, with the mesh's material, position, radius and counts modulo 2^32 |
| MeshExport.CounterStep | src/Exporter.cpp:439-445 | one mesh moves the counter by the bytes it writes, modulo 2^32 |
| MeshExport.CounterMatchesBlob | src/Exporter.cpp:439-445 | the file offset always equals the bytes written to the stream, modulo 2^32 |
| MeshExport.NoWrapRecord | src/Exporter.cpp:436-445 | below 2^32 a record stores 56 bytes per vertex and 4 per index, and its index region starts where its vertex region ends |
| MeshExport.BytesMonotone | src/Exporter.cpp:439-445 | the bytes of more meshes are no fewer |
| MeshExport.CounterExact | src/Exporter.cpp:415-445 | while the total stays below 2^32, the offset equals the bytes of the meshes so far, which are the bytes written |
| MeshExport.CounterExactStep | src/Exporter.cpp:439-445 | without wrap-around, one mesh moves the offset by exactly its bytes |
| MeshExport.RecordExact | src/Exporter.cpp:436-445 | without wrap-around, record `k` starts at the bytes of the meshes before it, with exact sizes, and ends where the next record starts (or at the final offset) |
| MeshExport.LayoutContiguous | src/Exporter.cpp:415-447 | without wrap-around, the regions lie back to back from offset 0 and end at the final offset, which is the blob size |
| MeshExport.BlobSplit | src/Exporter.cpp:418-447 | the blob of `n` meshes is the blob of the first `k` followed by the rest |
| MeshExport.BlobPrefix | src/Exporter.cpp:440-444 | the cells the first meshes write; its properties are stated by `BlobSplit`, `BlobRegionsAt` and `CounterMatchesBlob` |
| MeshExport.BlobPrefixStep | src/Exporter.cpp:440-444 | (proof helper) each mesh appends its vertex region and then its index region |
| MeshExport.BlobRegionsAt | src/Exporter.cpp:440-444 | mesh `k`'s two regions sit in the blob right after the earlier meshes' cells |
| MeshExport.RegionsAt | src/Exporter.cpp:439-445 | without wrap-around, the blob holds at record `k`'s offsets exactly mesh `k`'s vertex cells and then its index cells |
| MeshExport.RegionsRoundTrip | src/Exporter.cpp:436-445 | without wrap-around, reading the blob at record `k`'s offsets and counts gives back mesh `k`'s vertices and indices |
| MeshExport.DecodeRegions | src/Exporter.cpp:440-444 | written vertex and index cells decode to the arrays written |
| MeshExport.RecordOffsets | src/Exporter.cpp:439-443 | record `k`'s offsets, in cells, are where the blob holds its regions, and the whole vertex array is written |
| MeshExport.WrapAddBytes | src/Exporter.cpp:441-445 | adding a wrapped size to a wrapped counter keeps it equal to the bytes modulo 2^32 |
| MeshExport.WrapFourMultiple | src/Exporter.cpp:436-437 | a wrapped multiple of four is still a multiple of four |
| MeshExport.TriangleRecord | src/Exporter.cpp:433-445 | a three-vertex, three-index mesh placed first gets sizes 168 and 12, offsets 0 and 168, and the next mesh starts at 180 |
| MeshExport.TriangleExported | src/Exporter.cpp:411-453 | a scene of the unit right triangle, exported uncentred, gets one record at the origin with radius 1, 3 vertices and 3 indices, vertex bytes 0-168, index bytes 168-180, and a final offset of 180 |
| MeshExport.SingleMeshRecords | src/Exporter.cpp:428-447 | (proof helper) a one-mesh scene gets the one record made at offset 0 |
| MeshExport.ConvertPrefix | src/Exporter.cpp:418-426 | one converted mesh per mesh |
| MeshExport.ConvertScene | src/Exporter.cpp:418-426 | one converted mesh per mesh; `ConvertPrefixAt` and `ConvertSceneAt` state what each one is |
| MeshExport.ConvertPrefixAt | src/Exporter.cpp:418-426 | mesh `k` is converted with the generator where the earlier meshes left it |
| MeshExport.ConvertSceneAt | src/Exporter.cpp:418-426 | each converted mesh keeps its vertex count, holds its flattened faces, sits at the origin unless centring, and has a non-negative radius |
| MeshExport.ConvertNext | src/Exporter.cpp:420-426 | clearing and converting into the reused buffer leaves exactly mesh `i`'s conversion in it |
| MeshExport.ExportStep | src/Exporter.cpp:428-447 | the loop body makes mesh `i`'s record at the current offset and appends its vertex region and its whole index array to the stream |
| MeshExport.ConvertAndExportMeshes | src/Exporter.cpp:411-453 | returns the records of the converted scene, appends its blob to the stream, and moves the generator by every centred mesh's draws |
| Materials.ReplaceBackslashes | src/Exporter.cpp:104 | the same length, every `\` becomes `/`, every other character is kept |
| Materials.GetTexture | src/Exporter.cpp:97-109 | a failed lookup gives `""`; otherwise the path with `\` replaced by `/` |
| Materials.NoBackslashLeft | src/Exporter.cpp:104 | no `\` is left |
| Materials.CleanPathUnchanged | src/Exporter.cpp:104 | a path without `\` is returned unchanged |
| Materials.ReplaceIdempotent | src/Exporter.cpp:104 | replacing twice is replacing once |
| Materials.GetTextureClean | src/Exporter.cpp:97-109 | texture paths hold no `\`, and passing one back through changes nothing |
| Materials.ShininessOf | src/Exporter.cpp:377-399 | a failed lookup or 0 gives 40; any other value is divided by 4; the result is never 0 and is positive exactly when the lookup failed or gave a non-negative value |
| Materials.IndexOf | src/Exporter.cpp:393 | the `unsigned` index stored into an `int` is in the `int` range and equal to it modulo 2^32 |
| Materials.GetMaterials | src/Exporter.cpp:348-409 | one material per scene material, in order, each made from its lookups |
| Materials.MaterialOf | src/Exporter.cpp:392-403 | one exported material from its lookups; its properties are stated by `MaterialProperties` |
| Materials.MaterialProperties | src/Exporter.cpp:352-405 | material `i` has index `i` (below 2^31), the empty name when the name lookup fails, texture paths without `\`, and a non-zero shininess |

## Left out

- Assimp itself is not part of this model: importing and post-processing the scene, `aiMesh` and `aiMaterial` storage, and the lookup functions. Their results are inputs.
- Opening, writing and closing files is modelled only as the stream's cell sequence. The Lua scene description (`ExportScene`, `ToLuaString`), console output, `Export` and `main` are not part of this model.
- Floating-point rounding: coordinates are reals and `sqrt` is exact.
- `std::mt19937` and `std::uniform_int_distribution` internals: the value behind each distribution call is a parameter, and the mapping into an interval is only constrained to land in it.
- Names read through `aiString::C_Str()` (material names, src/Exporter.cpp:394, and texture paths, src/Exporter.cpp:103) stop at the first NUL character. The model takes the looked-up strings as they are and does not capture that truncation.
- The material colour lookups (diffuse, ambient, specular, emissive) are not modelled. They only copy a looked-up colour or a constant.
- The `#if 0` blocks (vertex colours, the average-of-positions centre) are not compiled, so they are not modelled.
- BoundingSphere.FindCenterOfBoundingSphere: requires at least one vertex. With none, the source reads `mVertices[0]` of an empty array.
- MeshConverter.WellFormed: meshes are assumed to carry normals and to have at most `AI_MAX_VERTICES` vertices. This is an assumption of the model, not a guarantee: a point or line mesh has no normals, and the source would then read through a null pointer.
- MeshExport.ConvertAndExportMeshes: requires fewer than 2^32 meshes, the range of the `unsigned` loop counter.
- MeshExport.RegionsRoundTrip, MeshExport.RegionsAt, MeshExport.RecordExact, MeshExport.LayoutContiguous, MeshExport.CounterExact: these require the blob to stay below 2^32 bytes. Above that, the `uint32_t` offsets wrap and only `MeshExport.CounterMatchesBlob` (agreement modulo 2^32) holds.
- Materials.ShininessOf: NaN and negative zero are not modelled. The uninitialised `max` argument is taken to read one value.
- Materials.GetMaterials: requires fewer than 2^32 materials, the range of the `unsigned` loop counter.
