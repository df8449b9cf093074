# Endless terrain: pool, segment mesh builder and streamer

A Dafny model of the streaming-terrain core of a Unity side-scroller (a
"tiny wings" clone). Three components work together:

- **`TerrainPool`** (module `Pooling`) is a lazily growing object pool of
  segment handles.
  - It keeps a FIFO queue of free handles (`free`) and a list of active
    handles (`active`).
  - `GetSegment` takes the front of the queue, creating a handle first when
    the queue is empty and `maxPoolSize > 0`.
  - `ReturnSegment` ignores `null` and handles that are not in the active list. Otherwise it resets
    the handle and enqueues it at the back of the queue.
  - The invariant is `multiset(free) + multiset(active) == multiset(All)`,
    where the ghost set `All` holds every handle ever created. So the two
    collections are disjoint, neither repeats a handle, and together they
    hold every handle. A handle's `active` flag (`gameObject.activeSelf`)
    is set exactly when it is in the active list, and every queued handle is
    cleared.
- **`TerrainSegment`** (module `Segments`) is one pooled handle. From `n`
  surface points it builds:
  - `2n` vertices: a top row, and a bottom row offset down by the depth;
  - `6(n-1)` triangle indices, two triangles per quad;
  - UVs with `u = i/(n-1)`;
  - a collider polyline equal to the points.

  The array loops are methods (`BuildVertices`, `BuildTriangles`,
  `BuildUVs`) proved equal to specification functions (`MeshVertices`,
  `MeshTriangles`, `MeshUVs`). The index topology, ranges, layout, UV rows
  and winding are lemmas about those functions.
- **`TerrainGenerator`** (module `Streaming`) generates and streams segments.
  - It samples each segment's surface points from a noise function, with
    causal left-to-right smoothing through `Mathf.Lerp`.
  - It places segments one after another at `currentX`, and advances
    `currentX` by `segmentWidth` and `noiseOffset` by `noiseScale`.
  - `Update` tops the list up by one segment if it holds fewer than
    `MAX_SEGMENTS = 5`, then retires the front segment if its x lies below
    `-segmentWidth`.
  - `Reset` returns everything to the pool and regenerates.

  The sampling loop is a method proved equal to the recursive
  `SegmentPoints`. The generator's invariant `Valid()` has five parts:
  - its list is the pool's active list;
  - the ghost counter `spawned` counts the segments placed since the last
    rewind;
  - `currentX == spawned * segmentWidth`;
  - `noiseOffset == spawned * noiseScale`;
  - list entry `i` is the segment placed as number `firstPlaced + i`. It sits
    at origin `(firstPlaced + i) * segmentWidth` with the configured width
    and depth.

Engine floats are modelled as reals. `Mathf.PerlinNoise` is a function-valued
parameter (`Noise`). Handles are object references.

Six facts about the code shape the model:
- the pool has no total capacity bound: only the queue length is compared
  with `maxPoolSize`;
- the generator does not skip a placement when the pool hands out no
  segment: it uses the handle without a null check;
- heights are noise times `heightScale`, smoothed, and not remapped to any
  other range;
- the window is bounded by segment count (`MAX_SEGMENTS`), not by observer
  distance;
- each frame spawns at most one segment and retires at most one;
- with a non-negative `segmentWidth` no segment is ever retired: every
  origin is at least 0, and the retirement test asks for one below
  `-segmentWidth`. So the terrain never grows past the five segments
  `Start` places, and `Update` leaves a full list unchanged
  (`NothingRetires`, `Update`).

## Model

| member | source | states |
|---|---|---|
| Geometry.Clamp01 | Assets/Scripts/TerrainGenerator.cs:67 | the interpolation parameter is clamped to [0, 1]: kept inside, 0 below, 1 above |
| Geometry.Lerp | Assets/Scripts/TerrainGenerator.cs:67 | `Mathf.Lerp(a, b, t)` lies between a and b, equals a for t <= 0 and b for t >= 1 |
| Geometry.Scale | Assets/Scripts/TerrainGenerator.cs:61 | a non-negative scale times a factor in [0, 1] lies in [0, scale]; factor 0 gives 0 and factor 1 gives the scale |
| Geometry.Fraction | Assets/Scripts/TerrainSegment.cs:69-70 | `i / (n - 1)` for a positive divisor: 0 at i = 0, 1 at i = n - 1, in [0, 1] in between, non-negative for i >= 0 |
| Geometry.FractionMonotone | Assets/Scripts/TerrainSegment.cs:69-70 | dividing by the same positive number preserves order |
| Segments.MeshVertices | Assets/Scripts/TerrainSegment.cs:45-50 | the vertex buffer over n points has exactly 2n vertices |
| Segments.VertexLayout | Assets/Scripts/TerrainSegment.cs:46-50 | top vertex i is (x_i, y_i, 0); bottom vertex i + n has the same x, y_i - height and z = 0 |
| Segments.Quad | Assets/Scripts/TerrainSegment.cs:56-62 | one quad writes six indices, and its two triangles share the diagonal edge (q+1, q+n) |
| Segments.Quads | Assets/Scripts/TerrainSegment.cs:53-63 | the index buffer for m quads has exactly 6m entries |
| Segments.MeshTriangles | Assets/Scripts/TerrainSegment.cs:53-63 | the index buffer over n points has exactly 6(n-1) entries |
| Segments.QuadAt | Assets/Scripts/TerrainSegment.cs:56-62 | quad q occupies entries 6q .. 6q+5 of the buffer |
| Segments.QuadEntries | Assets/Scripts/TerrainSegment.cs:54-62 | entry k of the buffer is corner k % 6 of quad k / 6 |
| Segments.QuadsInRange | Assets/Scripts/TerrainSegment.cs:54-63 | every entry of the buffer for m quads lies in [0, m + n] |
| Segments.TriangleIndicesInRange | Assets/Scripts/TerrainSegment.cs:53-63 | n points give 6(n-1) triangle indices, each in [0, 2n-1] |
| Segments.QuadLayout | Assets/Scripts/TerrainSegment.cs:56-62 | quad q is (q, q+1, q+n, q+1, q+n+1, q+n) and each of its two triangles has three distinct corners |
| Segments.MeshUVs | Assets/Scripts/TerrainSegment.cs:66-71 | the UV buffer over n points has exactly 2n entries |
| Segments.UVRows | Assets/Scripts/TerrainSegment.cs:66-71 | top row has v = 1, bottom row v = 0, and both rows share u = i/(n-1), the helper `U` of lines 69-70 |
| Segments.UMonotone | Assets/Scripts/TerrainSegment.cs:69-70 | u is 0 at the first column and 1 at the last, stays in [0, 1] and never decreases |
| Segments.ConsistentWinding | Assets/Scripts/TerrainSegment.cs:56-62 | with strictly increasing x and positive depth, both triangles of every quad wind clockwise |
| Segments.BuildMesh | Assets/Scripts/TerrainSegment.cs:40-79 | the three buffers GenerateMesh fills are exactly MeshVertices, MeshTriangles and MeshUVs of the points |
| Segments.BuildVertices | Assets/Scripts/TerrainSegment.cs:45-50 | the vertex loop fills exactly MeshVertices(points, height) |
| Segments.BuildTriangles | Assets/Scripts/TerrainSegment.cs:53-63 | the triangle loop fills exactly MeshTriangles(n) |
| Segments.BuildUVs | Assets/Scripts/TerrainSegment.cs:66-71 | the UV loop fills exactly MeshUVs(n) |
| Segments.TerrainSegment.constructor | Assets/Scripts/TerrainPool.cs:53 | a new prefab instance is in the cleared state with no collider points |
| Segments.TerrainSegment.Initialize | Assets/Scripts/TerrainSegment.cs:31-38 | width, height and points are stored, and mesh and collider are the ones built from those points (HoldsMesh) |
| Segments.TerrainSegment.GenerateMesh | Assets/Scripts/TerrainSegment.cs:40-79 | the mesh becomes the vertex, index and UV buffers of the stored points and height |
| Segments.TerrainSegment.UpdateCollider | Assets/Scripts/TerrainSegment.cs:81-84 | the collider polyline is exactly the stored points (top edge only) |
| Segments.TerrainSegment.Reset | Assets/Scripts/TerrainSegment.cs:94-103 | position back at zero, mesh cleared, points null; nothing else changes |
| Pooling.RemoveFirst | Assets/Scripts/TerrainPool.cs:85 | `List.Remove` drops one occurrence of the element (length one less, multiset minus it) and leaves a list without it unchanged |
| Pooling.RemoveFirstSplit | Assets/Scripts/TerrainPool.cs:85 | the occurrence `List.Remove` drops is the first one: the result is the list cut around the leftmost index holding the element |
| Pooling.RemoveOnly | Assets/Scripts/TerrainPool.cs:85 | removing an element that occurs once leaves exactly the other elements |
| Pooling.RemoveFront | Assets/Scripts/TerrainGenerator.cs:90-91 | removing the front element by value is `RemoveAt(0)` |
| Pooling.TerrainPool.Valid | Assets/Scripts/TerrainPool.cs:12-13 | the pool invariant: queue plus active list is, as a multiset, the set of created handles; a handle is flagged active iff it is in the active list; queued handles are cleared; a disabled pool has no handles |
| Pooling.TerrainPool.Partition | Assets/Scripts/TerrainPool.cs:12-13 | under the invariant the queue and the active list are disjoint, duplicate-free and together hold every created handle, so their lengths add up to the number of handles |
| Pooling.TerrainPool.Membership | Assets/Scripts/TerrainPool.cs:12-13 | a handle was created iff it is in the queue or the active list, and never in both |
| Pooling.TerrainPool.FrontUnique | Assets/Scripts/TerrainPool.cs:73-75 | the front of the active list occurs nowhere else in it |
| Pooling.TerrainPool.Awake | Assets/Scripts/TerrainPool.cs:15-35 | without a prefab the pool is disabled and has no handles; otherwise it warms up with Clamp(initialPoolSize, maxPoolSize) queued handles and an empty active list |
| Pooling.TerrainPool.Clamp | Assets/Scripts/TerrainPool.cs:39-47 | the warm-up count is 0 when either bound is non-positive; otherwise it is min(initialPoolSize, maxPoolSize), which is positive |
| Pooling.TerrainPool.InitializePool | Assets/Scripts/TerrainPool.cs:37-43 | appends min(initialPoolSize, maxPoolSize - queue length) fresh handles (none if the queue is full) and keeps the invariant |
| Pooling.TerrainPool.CreateNewSegment | Assets/Scripts/TerrainPool.cs:45-56 | refuses when the queue holds maxPoolSize handles; otherwise enqueues one fresh inactive handle at the back |
| Pooling.TerrainPool.GetSegment | Assets/Scripts/TerrainPool.cs:58-77 | returns the queue front (oldest released), or a fresh handle when the queue is empty and maxPoolSize > 0, appended to the active list and activated; null with nothing changed only when the queue is empty and maxPoolSize <= 0 |
| Pooling.TerrainPool.ReturnSegment | Assets/Scripts/TerrainPool.cs:79-91 | null or a handle not in the active list changes nothing; an active handle leaves the active list, is reset and deactivated and goes to the back of the queue; the set of handles never changes |
| Pooling.TerrainPool.Release | Assets/Scripts/TerrainPool.cs:83-90 | the guarded branch of ReturnSegment: remove, reset, deactivate, enqueue, keeping the invariant |
| Pooling.TerrainPool.MoveToQueue | Assets/Scripts/TerrainPool.cs:85-89 | the list half of a release: the handle leaves the active list (first occurrence) and joins the back of the queue, and the multiset balance is kept |
| Pooling.TerrainPool.ReturnAllSegments | Assets/Scripts/TerrainPool.cs:93-99 | the active list becomes empty and the queue receives the formerly active handles in active-list order |
| Streaming.NextPoint | Assets/Scripts/TerrainGenerator.cs:55-70 | the first and last points keep their raw height; an interior point lies between its raw height and its left neighbour's height. The helpers `Step` (line 55), `SampleX` (line 59), `NoiseAt` (line 60) and `RawHeight` (line 61) are the loop's step, x, noise sample and raw height |
| Streaming.SamplePrefix | Assets/Scripts/TerrainGenerator.cs:54-71 | the first k points of a segment: exactly k of them, each one following from the points before it |
| Streaming.SegmentPoints | Assets/Scripts/TerrainGenerator.cs:52-74 | a segment has exactly pointsPerSegment points |
| Streaming.PrefixStable | Assets/Scripts/TerrainGenerator.cs:57-71 | sampling further points never changes the points already sampled |
| Streaming.PointRecurrence | Assets/Scripts/TerrainGenerator.cs:57-70 | point i of a segment is NextPoint of the points before it, the left-to-right recurrence of the loop |
| Streaming.PointsX | Assets/Scripts/TerrainGenerator.cs:55-59 | a segment has exactly pointsPerSegment points and point i sits at x = i * segmentWidth / (pointsPerSegment - 1) |
| Streaming.PointsSpanWidth | Assets/Scripts/TerrainGenerator.cs:55-59 | the first point is at x = 0 and the last at x = segmentWidth |
| Streaming.PointsHeights | Assets/Scripts/TerrainGenerator.cs:60-68 | end points keep the raw height noise * heightScale; interior point i has height Lerp(raw_i, height_(i-1), smoothness) |
| Streaming.RawInRange | Assets/Scripts/TerrainGenerator.cs:60-61 | with noise in [0, 1] and heightScale >= 0 a raw height lies in [0, heightScale] |
| Streaming.HeightsInRange | Assets/Scripts/TerrainGenerator.cs:61-68 | with noise in [0, 1] and heightScale >= 0 every sampled height lies in [0, heightScale] |
| Streaming.PointsIncreasing | Assets/Scripts/TerrainGenerator.cs:55-59 | with a positive width the sampled x strictly increase, which is the precondition of ConsistentWinding |
| Streaming.Advance | Assets/Scripts/TerrainGenerator.cs:48-49 | one placement moves the origin on by segmentWidth and the noise offset by noiseScale |
| Streaming.OriginsIncreasing | Assets/Scripts/TerrainGenerator.cs:40-48 | with a positive width a later placement has a strictly larger origin |
| Streaming.NoRetirement | Assets/Scripts/TerrainGenerator.cs:88 | with a non-negative width no segment placed since the last rewind satisfies the retirement test |
| Streaming.TerrainGenerator.Valid | Assets/Scripts/TerrainGenerator.cs:18-20 | the generator invariant: its list is the pool's active list, entry i is the segment placed as number firstPlaced + i at its origin with the configured size, and currentX and noiseOffset have advanced once per placement |
| Streaming.TerrainGenerator.constructor | Assets/Scripts/TerrainGenerator.cs:18-20 | the field initialisers: currentX = 0, noiseOffset = 0, empty list, invariant established |
| Streaming.TerrainGenerator.GenerateSegmentPoints | Assets/Scripts/TerrainGenerator.cs:52-74 | the sampling loop returns exactly SegmentPoints(settings, noise, noiseOffset) |
| Streaming.TerrainGenerator.GenerateNextSegment | Assets/Scripts/TerrainGenerator.cs:36-50 | appends exactly one segment, at the old currentX, holding the points sampled at the old noiseOffset and their mesh (Sampled for its placement number); the list before it is unchanged, and so are the points, mesh and collider of every segment already in it; currentX grows by segmentWidth and noiseOffset by noiseScale; when the queue was not empty, the appended handle is the old queue front, the queue loses exactly its front and no handle is created; when it was empty, the appended handle is fresh, it is the only handle added, and the queue stays empty |
| Streaming.TerrainGenerator.PlaceSegment | Assets/Scripts/TerrainGenerator.cs:40-44 | the handle sits at currentX with the configured size, holds the points sampled at the current noise offset, and its mesh and collider are built from them |
| Streaming.TerrainGenerator.Append | Assets/Scripts/TerrainGenerator.cs:47-49 | list grown by the placed segment, currentX and noiseOffset advanced by one segment, invariant kept |
| Streaming.TerrainGenerator.SampledMeaning | Assets/Scripts/TerrainGenerator.cs:40-44 | a handle shows the k-th placement (Sampled) iff it holds the points sampled at noise offset k * noiseScale, the configured depth, and the mesh and collider built from those points |
| Streaming.TerrainGenerator.GenerateInitialTerrain | Assets/Scripts/TerrainGenerator.cs:28-34 | appends exactly MAX_SEGMENTS segments behind the existing list, keeping the invariant; appended segment k holds the points sampled for its placement number and their mesh; earlier segments keep their points, mesh and collider; when the queue holds at least MAX_SEGMENTS handles, its first MAX_SEGMENTS handles are the ones appended, in queue order, the rest of the queue stays and no handle is created |
| Streaming.TerrainGenerator.GenerateOne | Assets/Scripts/TerrainGenerator.cs:30-33 | one loop iteration: one more segment sampled for its placement number, the segments already sampled keep their content, and a non-empty queue gives up its front handle |
| Streaming.TerrainGenerator.Start | Assets/Scripts/TerrainGenerator.cs:23-26 | from the initial state the generator reaches the initial layout: five segments at origins 0, w, .., 4w holding the points sampled at noise offsets 0, noiseScale, .., 4 * noiseScale and their meshes, currentX = 5w, noiseOffset = 5 * noiseScale |
| Streaming.TerrainGenerator.LayoutAfterInitialTerrain | Assets/Scripts/TerrainGenerator.cs:28-34 | five segments placed since a rewind, holding the points sampled for placements 0..4, are at origins 0, w, .., 4w with currentX = 5w and noiseOffset = 5 * noiseScale: the initial layout |
| Streaming.TerrainGenerator.NothingRetires | Assets/Scripts/TerrainGenerator.cs:85-93 | with a non-negative width no listed segment passes the retirement test of line 88 |
| Streaming.TerrainGenerator.OriginsAlongList | Assets/Scripts/TerrainGenerator.cs:40-48 | with a positive width the origins along the list strictly increase |
| Streaming.TerrainGenerator.Update | Assets/Scripts/TerrainGenerator.cs:76-94 | spawns one segment iff the count was below MAX_SEGMENTS; then retires the front one iff its origin is below -segmentWidth, returning it to the pool cleared; a count at most 5 stays at most 5; with a non-negative width nothing is ever retired and a list already holding MAX_SEGMENTS segments leaves list, queue and handle set unchanged; the pool's queue ends as the old queue, minus its front if a queued handle was placed, plus the retired handle at the back; the handle set grows only by a freshly created placed handle; a segment placed and not retired sits at the old currentX with the points sampled at the old noiseOffset and their mesh; every segment that stays keeps its points, mesh and collider |
| Streaming.TerrainGenerator.TopUp | Assets/Scripts/TerrainGenerator.cs:78-82 | the first half of a frame: one segment is appended iff the list held fewer than MAX_SEGMENTS, sampled at the old currentX and noiseOffset; it is the old queue front when the queue was not empty, otherwise a fresh handle; the pool changes only by that one take |
| Streaming.TerrainGenerator.RetireIfBehind | Assets/Scripts/TerrainGenerator.cs:84-93 | the second half of a frame: the front segment is retired iff the list is non-empty and its origin lies below -segmentWidth; it then leaves the list and goes to the back of the queue, cleared and inactive; otherwise list and pool are unchanged; the set of handles never changes; with a non-negative width nothing is retired |
| Streaming.TerrainGenerator.RetireFront | Assets/Scripts/TerrainGenerator.cs:87-91 | the front segment goes to the back of the pool's queue, inactive and cleared, the rest of the queue and the set of handles are unchanged, and the list loses exactly its front, keeping the invariant |
| Streaming.TerrainGenerator.ReleaseFront | Assets/Scripts/TerrainGenerator.cs:90 | the pool takes the front back: its active list becomes the rest of the list, the front is appended to the back of the queue, inactive and cleared, the set of handles is unchanged, and the other segments keep position and size |
| Streaming.TerrainGenerator.DropFront | Assets/Scripts/TerrainGenerator.cs:91 | `RemoveAt(0)`: the list loses its front and the invariant is restored |
| Streaming.TerrainGenerator.Reset | Assets/Scripts/TerrainGenerator.cs:96-103 | everything goes back to the pool, and the generator ends in the same initial layout as Start (origins, sampled points and meshes, currentX, noiseOffset); no handle is lost; when the pool already held at least five handles none is created, and the new list followed by the queue is the old queue followed by the old list |
| Streaming.TerrainGenerator.Rewind | Assets/Scripts/TerrainGenerator.cs:98-101 | the first half of Reset: the list is empty, currentX and noiseOffset are 0, no handle is created or lost, and the queue is the old queue followed by the old active list, so it holds every handle |

## Left out

- `PlayerController.cs` is not part of this model. It is Unity physics, input polling and editor gizmos.
- `Mathf.PerlinNoise` is an opaque deterministic function parameter. Its range [0, 1] is an assumption of the height-range lemmas, not something the code checks.
- IEEE float rounding, NaN and infinity are not modelled: coordinates, heights and UVs are reals.
  - Equalities such as "the last x equals segmentWidth" hold over the reals.
  - Streaming.TerrainGenerator.GenerateSegmentPoints: requires pointsPerSegment >= 2. With one point the source divides by zero (infinite step, NaN x). With zero points it returns an empty array, and the segment's `GenerateMesh` then allocates a triangle array of negative length. A negative count fails at the point array's allocation.
  - Segments.TerrainSegment.Initialize: requires at least two points. With one point the UV loop divides 0 by 0; with none the triangle array has negative length.
- Unity object lifecycle is left out:
  - `Instantiate` is modelled as the `TerrainSegment` constructor.
  - `SetActive` is modelled as the `active` flag.
  - Not modelled: `SetParent`, the pool container, component auto-adding in the segment's `Awake`, `SetMaterial`, `Mesh` objects and `RecalculateNormals`, and `Debug.Log*` messages.
- Segments.TerrainSegment.Reset: the reset of the transform's rotation is not modelled, because the model has no rotation.
- Segments.TerrainSegment.constructor: the prefab instance is taken to be cleared at the origin with an empty collider. The prefab's real content is not visible in the code.
- `TerrainPool.OnDestroy` is not modelled. It only calls ReturnAllSegments at teardown.
- Streaming.TerrainGenerator.GenerateNextSegment: requires maxPoolSize >= 1. In the source, a null handle from GetSegment would crash at the next line, because the code has no null check.
- Pool methods called on a disabled pool are not modelled, because its collections are null and the source would crash. ReturnSegment(non-null) and ReturnAllSegments require an enabled pool.
- The pool is assumed to have the generator as its only client. So the pool's active list and the generator's list are the same sequence.
- Streaming.TerrainGenerator.Update: nothing in the code moves segment transforms, so a segment's origin is its stored position. No external "shift" operation is modelled.
- Streaming.TerrainGenerator.Valid: the invariant records only position, width and depth of each listed segment. The sampled points and the mesh are stated in the method contracts instead: for the segments GenerateNextSegment, GenerateInitialTerrain and Update place, for the whole list in the initial layout after Start and Reset, and as "unchanged" for segments already in the list.
- Seam-free noise is not claimed, because the code does not have it. `noiseOffset` advances by `noiseScale` per segment, while one segment samples noise over `segmentWidth * noiseScale`.
