# Icosphere topology and displacement composition, in Dafny

This project models two parts of the ProceduralPlanetV2 Unity project.

- **`IcosphereGenerator`** (`Assets/IcosphereGenerator.cs`): `GenerateMesh` creates a fresh midpoint cache, builds the 12-corner, 20-triangle icosahedron (`CreateShape`) and runs `subdivisionLimit` passes of `Subdivide`. Each pass replaces every triangle by four. `MiddlePoint` keys each edge by a C# `long` built from its two endpoint indices, so a shared edge gets one midpoint vertex, appended through `AddVertex`.
- **`ProceduralGenerator.Generate`** (`Assets/ProceduralGenerator.cs`): every shape generator gets a fresh copy of the icosphere's vertex array. Whatever each one leaves in its array is added element-wise onto a copy of the base vertices. The mesh then receives the sums and its own triangle list, unchanged.

Vertex positions in the icosphere are an abstract type `V`. The corner positions, `ProjectToUnitSphere` and the coordinate average are uninterpreted functions (`Icosphere.Geometry`), so only the index, cache and triangle-list bookkeeping is exact. In the composer, vectors are triples of reals and generators are arbitrary functions from a vertex array to an array.

Modules, one per file:

| file | module | contents |
|---|---|---|
| `results.dfy` | `Results` | `Result` with the one exception the core can raise, an out-of-range list or array read |
| `edge_key.dfy` | `Keys` | the `long` edge key with 64-bit wrap-around written out; symmetry and injectivity |
| `base_shape.dfy` | `BaseShape` | the hard-coded base triangle list |
| `icosphere.dfy` | `Icosphere` | `CreateShape`, `AddVertex`, `MiddlePoint`, one pass of `Subdivide`, `Subdivide`, `GenerateMesh` and their invariants |
| `base_edges.dfy` | `BaseEdges` | the 30 edges of the base list, each on two triangles, and the first pass from a fresh cache |
| `composer.dfy` | `Composer` | `ProceduralGenerator.Generate` as a method with loops, and a reference definition of its result |

Modelling choices:

- Errors are values. A read of `vertices[p]` with `p` out of range, a triangle list whose length is not a multiple of three, and a generator array shorter than the base all yield `Err(IndexOutOfRange)`. These correspond to C#'s `ArgumentOutOfRangeException` and `IndexOutOfRangeException`.
- `MiddlePoint` takes the builder (vertex list and cache) and returns the new builder and the index. `Subdivide` threads the builder through the passes, because the source creates the cache once per `GenerateMesh` and keeps it across passes.
- The key is `(smaller << 32) + greater` in `long` arithmetic. It is computed exactly and then wrapped into the signed 64-bit range (`Keys.WrapLong`).
- `Composer.Generate` returns the mesh as it is after the call, together with an outcome: `Ok` when the call returns normally, `Err(IndexOutOfRange)` when the accumulation loop throws. When the object is inactive, and when the loop throws, the mesh returned is the one passed in, because the source writes to the mesh only after every generator has run.

Behaviour of the code that the model keeps:

- The array a generator leaves, base positions included, is added whole.
- An array longer than the base is silently truncated to the base length.
- A shorter array makes the accumulation loop throw. No length check rejects it first.
- A non-positive `subdivisionLimit` is not rejected. It runs no pass.

## Model

| member | source | states |
|---|---|---|
| Keys.WrapLong | Assets/IcosphereGenerator.cs:146-149 | the result fits a C# `long`, and values already in range are unchanged |
| Keys.WrapLongCongruent | Assets/IcosphereGenerator.cs:149 | wrapping changes the exact value only by a multiple of 2^64, as unchecked `long` arithmetic does |
| Keys.KeySymmetric | Assets/IcosphereGenerator.cs:145-149 | the key of (p1, p2) equals the key of (p2, p1) |
| Keys.KeyOfSorted | Assets/IcosphereGenerator.cs:145-147 | the key depends only on the smaller and the greater endpoint |
| Keys.KeyExact | Assets/IcosphereGenerator.cs:145-149 | for non-negative `int` endpoints no wrap-around happens: key = smaller * 2^32 + greater, a non-negative `long` |
| Keys.KeyInjective | Assets/IcosphereGenerator.cs:145-149 | two `int` pairs with equal keys are the same unordered pair, for all `int` values including negative ones |
| BaseShape.BaseTrianglesShape | Assets/IcosphereGenerator.cs:70-92 | the base list has 60 entries, 20 triangles, every entry naming one of the 12 corners |
| Icosphere.WholeIsMultiple | Assets/IcosphereGenerator.cs:113-117 | a list that the inner loop consumes three entries at a time without an out-of-range read has length a non-negative multiple of 3, and conversely |
| Icosphere.CreateShape | Assets/IcosphereGenerator.cs:48-92 | `CreateShape` yields exactly the 12 corners, in order, and 60 triangle indices, all below 12 |
| Icosphere.MiddlePointHit | Assets/IcosphereGenerator.cs:151-154 | on a cache hit, `MiddlePoint` returns the cached index and leaves vertices and cache unchanged |
| Icosphere.MiddlePointMiss | Assets/IcosphereGenerator.cs:138-170 | on a miss, the call throws exactly when an endpoint is out of range. Otherwise it appends one vertex, the projected average, and returns the old count as the index. It caches key → that index, re-projects `p1` and `p2` in place and changes no other vertex |
| Icosphere.MiddlePointCaches | Assets/IcosphereGenerator.cs:153-170 | after any successful call the edge is cached with the returned index. Earlier entries are kept, the key set grows by exactly the edge's key, and a vertex is added exactly when a cache entry is added |
| Icosphere.MiddlePointReused | Assets/IcosphereGenerator.cs:145-154 | asking again for the same edge, in either direction, returns the same index and changes nothing |
| Icosphere.MiddlePointKeepsValid | Assets/IcosphereGenerator.cs:156-170 | with both endpoints in range the call succeeds. It keeps every cache value a distinct appended vertex and never shrinks the vertex list. The returned index names an existing vertex |
| Icosphere.MiddlePointsExtends | Assets/IcosphereGenerator.cs:119-121 | a run of `MiddlePoint` calls keeps every earlier cache entry with its value |
| Icosphere.MiddlePointsCaches | Assets/IcosphereGenerator.cs:119-121 | after a run, the cache keys are exactly the earlier keys plus the keys of the edges asked for |
| Icosphere.MiddlePointsCount | Assets/IcosphereGenerator.cs:119-121 | a run adds exactly one vertex per new cache entry |
| Icosphere.MiddlePointsIndices | Assets/IcosphereGenerator.cs:119-121 | after a run, the cache maps each edge asked for to the index returned for it |
| Icosphere.MiddlePointsKeepValid | Assets/IcosphereGenerator.cs:119-121 | a run over existing endpoints succeeds, keeps the builder invariant and returns existing indices |
| Icosphere.SplitFaceMidpoints | Assets/IcosphereGenerator.cs:115-121 | after splitting (v1, v2, v3), the cache holds a, b and c under the keys of (v1, v2), (v2, v3) and (v3, v1) |
| Icosphere.SplitFaceCaches | Assets/IcosphereGenerator.cs:115-121 | splitting a triangle keeps earlier entries and adds exactly the keys of its three edges, with one vertex per new key |
| Icosphere.SplitFaceKeepsValid | Assets/IcosphereGenerator.cs:115-121 | splitting a triangle with existing corners succeeds, keeps the invariant and yields existing midpoints |
| Icosphere.Pass | Assets/IcosphereGenerator.cs:111-134 | a successful pass had a whole number of triangles to read, and yields four times as many indices |
| Icosphere.PassExtends | Assets/IcosphereGenerator.cs:111-134 | a pass never changes or removes an existing cache entry |
| Icosphere.PassCaches | Assets/IcosphereGenerator.cs:111-134 | after a pass, the cache keys are the earlier keys plus the keys of every edge of every triangle |
| Icosphere.PassCount | Assets/IcosphereGenerator.cs:111-134 | a pass adds exactly one vertex per newly cached edge, so a shared edge costs one vertex |
| Icosphere.PassRefines | Assets/IcosphereGenerator.cs:113-131 | a pass replaces each parent (v1, v2, v3), in order, by (v1, a, c), (v2, b, a), (v3, c, b), (a, b, c), with a, b and c the cached midpoints of its edges |
| Icosphere.PassValid | Assets/IcosphereGenerator.cs:111-134 | a pass over a whole list of existing indices succeeds, keeps the builder invariant and never shrinks the vertex list |
| Icosphere.PassKeepsValid | Assets/IcosphereGenerator.cs:111-134 | in addition, every index of the new triangle list names an existing vertex |
| Icosphere.SubdivideCount | Assets/IcosphereGenerator.cs:107-135 | after `limit` passes the triangle list is 4^limit times as long |
| Icosphere.SubdivideKeepsValid | Assets/IcosphereGenerator.cs:107-135 | subdividing a whole list of existing indices succeeds. It keeps the list whole and every triangle index below the vertex count. Every cache value stays a distinct appended vertex, and the vertex list never shrinks |
| Icosphere.GenerateMeshWellFormed | Assets/IcosphereGenerator.cs:36-44 | `GenerateMesh` never throws and yields 60 * 4^d indices, d = max(0, limit), all in range. The vertices are the 12 corners plus one per cached edge. A non-positive limit gives exactly the base shape: the 12 corners, the base list and an empty cache |
| BaseEdges.EdgeTable | Assets/IcosphereGenerator.cs:70-92 | the edge table lists 30 distinct pairs of distinct corners, in increasing order |
| BaseEdges.FaceEdgesListed | Assets/IcosphereGenerator.cs:70-92 | each of the three sides of each base triangle is a listed edge |
| BaseEdges.EdgeSharedByTwo | Assets/IcosphereGenerator.cs:70-92 | every listed edge lies on exactly two base triangles |
| BaseEdges.KeyOfIncreasing | Assets/IcosphereGenerator.cs:145-149 | the keys of the listed edges strictly increase, so the 30 edges have 30 distinct keys |
| BaseEdges.TableKeysCount | Assets/IcosphereGenerator.cs:145-149 | the first n listed edges have n distinct keys |
| BaseEdges.BaseEdgeKeys | Assets/IcosphereGenerator.cs:70-92 | the edge keys of the base list are exactly the keys of the 30 listed edges, 30 of them |
| BaseEdges.OnePass | Assets/IcosphereGenerator.cs:36-44 | with one subdivision from a fresh cache, 30 edges are cached, the 12 vertices become 42 and the 20 triangles become 80 |
| Composer.Generate | Assets/ProceduralGenerator.cs:19-46 | inactive: the mesh is untouched. Active: the call throws exactly when some generator leaves fewer entries than the base, and a throw leaves the mesh untouched. Otherwise the mesh gets base[i] plus the sum of every generator's array at i, for each i below N, together with the triangle list read before clearing |
| Composer.ComposedEmpty | Assets/ProceduralGenerator.cs:24-42 | with no generators the mesh receives the base vertices |
| Composer.ComposedAppend | Assets/ProceduralGenerator.cs:26-35 | appending a generator adds, at each position, what it leaves given the base, onto the previous result |
| Composer.DisplacementConcat | Assets/ProceduralGenerator.cs:26-35 | the summed displacement of two concatenated generator lists is the sum of the two lists' displacements |
| Composer.ComposedOrderFree | Assets/ProceduralGenerator.cs:26-35 | running one list of generators before another gives the same vertices as the reverse |
| Composer.ComposedSwap | Assets/ProceduralGenerator.cs:26-35 | swapping two neighbouring generators gives the same vertices, so over exact arithmetic the order does not matter |
| Composer.FreshCopyPerGenerator | Assets/ProceduralGenerator.cs:23-35 | each generator gets the base array, not the running sum: two generators that leave their array alone give three times the base, where handing on the running sum would give four times |
| Composer.ComposedConstants | Assets/ProceduralGenerator.cs:26-35 | two generators leaving constant vectors o1 and o2 give base + (o1 + o2) at every vertex, in either order |

## Left out

- Vertex coordinates: the golden-ratio corners, `Mathf.Sqrt`, the normalisation and the `* scale` in `ProjectToUnitSphere` are floating-point numerics. They are uninterpreted functions here, so nothing is stated about positions beyond which function produced them.
- Float rounding in `heights[i] += current[i]`. The composer adds reals, so its order-independence lemmas hold for exact arithmetic only.
- `UpdateMesh` and the Unity `Mesh` calls (`Clear`, `SetVertices`, `SetTriangles`, `RecalculateNormals`, `indexFormat`). They are a foreign rendering API. `Composer.Generate` returns the vertices and triangles written, not normals or the index format.
- The `MonoBehaviour` lifecycle (`Awake`, `Start`, `OnValidate`), the static `instance` field, `testValue`/`offsetTest` and the `SphereGeneratorInspector` editor button. They are engine plumbing with no effect on the generated data.
- `ShapeGenerator` (`Assets/Scripts/ShapeGenerator.cs`) has no behaviour of its own. Its `Generate` is modelled as a pure, total function of the array it is handed, and the no-op `GenerateSecondary` is not modelled.
- Generators with state or exceptions. A `ShapeGenerator` is a `ScriptableObject` with mutable fields (`settings`), so a real generator could keep state between calls, answer differently on a second call, or throw. Such generators are outside the model. `Composer.ComposedOrderFree`, `Composer.ComposedSwap` and `Composer.ComposedConstants` hold only for stateless generators.
- A `null` generator in the list, or a generator that sets its `ref` array to `null`, would throw `NullReferenceException`. Only the out-of-range read is modelled.
- `Composer.Generate`: when the loop throws, the result does not describe the half-updated local `heights` array. That array is local to the call and discarded, and the mesh is not written.
- `Icosphere.Pass`: a failing pass returns `Err` without the builder. In the source, the `MiddlePoint` calls made before the throw would have changed the public `vertices` list and the cache. That partial state never arises from `GenerateMesh`, because `Icosphere.GenerateMeshWellFormed` proves that `GenerateMesh` never throws.
- `List<T>` capacity limits and `int` overflow of `vertices.Count`. The model's lists are unbounded, and the key lemmas assume `int` indices (`Keys.KeyInjective` holds for every `int` pair).
