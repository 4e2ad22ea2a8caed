# OBJ mesh loading and mouse input of glengine, in Dafny

This project models three pieces of the `glengine` rendering library:

- `ObjLoader::load`. It reads Wavefront OBJ text lines. It fills the position, texture-coordinate and normal pools. It fan-triangulates every face, resolves each corner's 1-based or negative indices, and deduplicates corners through a cache keyed on the resolved index triplet. When `genNormals` is set and some normal is (near) zero, it regenerates every normal.
- `ObjMesh::interleavedPNV`. It serialises the mesh into 8 floats per vertex.
- The mouse handlers of `Renderer`: the held-button state, the first-drag flag, the last cursor position, and the calls they make on the orbital camera.

Modules:

- `geometry.dfy` (`Geometry`): vectors, `Vertex`, `ObjMesh` and the interleaved buffer. `InterleavedPNV` is a loop proved equal to the function `Interleaved`. That function is then proved to agree with the stride-8 / offset-0,3,6 attribute layout the renderer declares.
- `obj_text.dfy` (`ObjText`): the text helpers.
  - Word tokenising, as a string stream does it.
  - `std::stoi`, with its two exceptions.
  - `parse_element`: the slash scan is a method; the slicing is a function.
  - `fix_index`.
- `obj_loader.dfy` (`ObjLoader`): the loader.
  - The specification `Run` is a left fold of `Step` over the lines on a `Builder` value. A `Builder` holds the loader's locals: the pools, the vertices, the indices and the cache. It also holds, as ghost state, the resolved triplet of every corner emitted so far. Deduplication is stated against that history.
  - The imperative `Load`, with its nested loops over lines, fan triangles and corners, is proved equal to `Run` followed by the normal pass.
  - The invariant `Valid` has three parts:
    - the cache inverts the first-occurrence list of the corners;
    - vertex j is built from the j-th distinct triplet;
    - each index is the cached number of its corner.
    It holds after every line.
- `obj_normals.dfy` (`ObjNormals`): the structure of the normal regeneration. This covers the guard, the accumulation over complete index triples, and the write-back of every normal. The loop is proved equal to `Regenerated`.
- `mouse_input.dfy` (`MouseInput`):
  - a `Renderer` class with the four fields the handlers update;
  - an `OrbitalCamera` class reduced to a ghost log of the calls made on it;
  - pure functions `ButtonState`, `Move`, `Handle` and `Replay` that specify the handlers.

Behaviour kept exactly as the code has it:

- In the OBJ format an absent texture or normal member means "no reference". Here the member defaults to -1, and `fix_index(-1, N)` resolves it like any negative index. A `v` or `v/vt` element therefore takes the last texture coordinate or normal declared so far (`AbsentMemberTakesLast`). The member is left zero only while that pool is empty.
- A texture or normal index at or past the end of its pool makes `.at` throw, so the whole load fails. It is not replaced by zero.
- Each face normal is normalised before it is added to its corners' accumulators. The averaging is therefore not weighted by face area. A face whose normalised normal is NaN adds nothing.
- Texture coordinates are stored as read. No `1 - v` flip is applied.
- The header declares `load(path)`, while `ObjLoader.cpp` defines `load(path, genNormals)`. The `.cpp` signature is modelled.

## Model

| member | source | states |
|---|---|---|
| Geometry.ObjMesh.InterleavedPNV | OpenGL/src/glengine/include/glengine/ObjLoader.hpp:20-36 | returns `Interleaved(vertices)`: one 8-float block per vertex, in vertex order, `8 * |vertices|` floats in all; the mesh is a value and is not changed |
| Geometry.InterleavedAt | OpenGL/src/glengine/include/glengine/ObjLoader.hpp:23-34 | entries 8i..8i+2 are vertex i's position x, y, z; 8i+3..8i+5 its normal x, y, z; 8i+6, 8i+7 its texture u, v |
| Geometry.InterleavedLength | OpenGL/src/glengine/include/glengine/ObjLoader.hpp:22-34 | the buffer holds exactly 8 floats per vertex |
| Geometry.GpuReadsEveryVertex | OpenGL/src/glengine/src/Renderer.cpp:48-52 | reading the buffer with stride 8 and attribute offsets 0, 3, 6 yields every mesh vertex back exactly, so serialiser and declared layout agree |
| ObjText.WordLength | OpenGL/src/glengine/src/ObjLoader.cpp:102-103 | the extracted word is the maximal run of non-space characters, ended by white space or the end of the line |
| ObjText.Tokens | OpenGL/src/glengine/src/ObjLoader.cpp:102-113 | every word a line yields is non-empty and holds no white space |
| ObjText.TokensUnwords | OpenGL/src/glengine/src/ObjLoader.cpp:102-113 | words joined by single spaces tokenise back to the same words (round trip) |
| ObjText.StoI | OpenGL/src/glengine/src/ObjLoader.cpp:45 | `std::stoi` on a field: a result is always a 32-bit int; it throws `invalid_argument` exactly when no digit follows the optional sign, and otherwise only `out_of_range` |
| ObjText.StoIRoundTrip | OpenGL/src/glengine/src/ObjLoader.cpp:43-46 | `std::stoi` reads back every 32-bit int written in decimal, sign included |
| ObjText.SlashFrom | OpenGL/src/glengine/src/ObjLoader.cpp:42 | result is -1 or a position at or after `from` holding '/', with no '/' between `from` and it |
| ObjText.ScanSlashes | OpenGL/src/glengine/src/ObjLoader.cpp:41-42 | `slash1` is the first '/' (-1 exactly when the token has none); `slash2` is the next '/' after it or -1; the scan stops at the second |
| ObjText.ParseElement | OpenGL/src/glengine/src/ObjLoader.cpp:37-63 | scanning then slicing gives exactly `ElementOf(tok)`, including the stoi exceptions |
| ObjText.ElementNoSlash | OpenGL/src/glengine/src/ObjLoader.cpp:48-49 | a token without '/' sets v from the whole token and leaves vt = vn = -1 |
| ObjText.ElementOneSlash | OpenGL/src/glengine/src/ObjLoader.cpp:50-52 | `a/b` sets v from a, vt from b, and leaves vn = -1 |
| ObjText.ElementTwoSlashes | OpenGL/src/glengine/src/ObjLoader.cpp:53-61 | `a/b/c` sets v from a, vt from b (0 when b is empty), vn from c; the third field may hold further slashes, which stoi stops at |
| ObjText.ParseFormatted | OpenGL/src/glengine/src/ObjLoader.cpp:39-61 | the four written shapes read back: `v` gives (v,-1,-1), `v/vt` gives (v,vt,-1), `v//vn` gives (v,0,vn), `v/vt/vn` gives (v,vt,vn) |
| ObjText.FixIndex | OpenGL/src/glengine/src/ObjLoader.cpp:66-71 | `fix_index` into a pool of size n: the result is inside the pool exactly when the OBJ index is 1..n or -n..-1; an index past n stays at or past n, one below -n turns negative, and 0 (missing) gives -1 |
| ObjText.FixIndexCountsBack | OpenGL/src/glengine/src/ObjLoader.cpp:68-69 | OBJ index k and k-n-1 name the same element: -1 is the last declared, -n the first |
| ObjNormals.AnyNormalMissing | OpenGL/src/glengine/src/ObjLoader.cpp:148-151 | true exactly when some vertex normal has squared length below 1e-8 |
| ObjNormals.Regenerate | OpenGL/src/glengine/src/ObjLoader.cpp:153-172 | the accumulation and write-back loops compute `Regenerated`: one accumulator per vertex, summed over complete index triples, then every normal overwritten by its normalised accumulator or by (0,0,1) on NaN |
| ObjNormals.AllOrNone | OpenGL/src/glengine/src/ObjLoader.cpp:147-174 | indices, vertex count, positions and texture coordinates are kept; without the flag or without a short normal the mesh is returned unchanged; otherwise the new normals do not depend on the old ones |
| ObjNormals.AccumulatedIgnoresNormals | OpenGL/src/glengine/src/ObjLoader.cpp:159-165 | the accumulators read vertex positions only |
| ObjNormals.AccumulatedReadsPrefix | OpenGL/src/glengine/src/ObjLoader.cpp:154-157 | after t triangles the accumulators depend on the first 3t indices only |
| ObjNormals.TrailingIndicesIgnored | OpenGL/src/glengine/src/ObjLoader.cpp:154 | an incomplete trailing index triple is never read |
| ObjNormals.UnusedVertexKeepsZero | OpenGL/src/glengine/src/ObjLoader.cpp:153-166 | a vertex no complete triangle uses keeps a zero accumulator |
| ObjLoader.Load | OpenGL/src/glengine/src/ObjLoader.cpp:82-177 | the line loop, then the optional normal pass, return exactly `LoadResult`: the folded builder's mesh, or the first exception |
| ObjLoader.ReadLine | OpenGL/src/glengine/src/ObjLoader.cpp:100-143 | one line is exactly `Step`: skip, pool append, face, or ignore |
| ObjLoader.ParseFaceTokens | OpenGL/src/glengine/src/ObjLoader.cpp:111-113 | the token loop is exactly `ParseFace`, failing with the first bad token's exception |
| ObjLoader.EmitFace | OpenGL/src/glengine/src/ObjLoader.cpp:116-141 | the fan loop is exactly `AddFan`: triangles (0,i,i+1) for i = 1..N-2 in order, stopping at the first throw |
| ObjLoader.EmitTriangle | OpenGL/src/glengine/src/ObjLoader.cpp:118-140 | the corner loop is exactly `AddCorners` over the three corners |
| ObjLoader.EmitCorner | OpenGL/src/glengine/src/ObjLoader.cpp:121-138 | resolve, cache hit or fetch-push-emplace, is exactly `AddCorner` |
| ObjLoader.FanTriangles | OpenGL/src/glengine/src/ObjLoader.cpp:116-118 | the fan has 3(j-1) corners and its triangle i-1 is (element 0, element i, element i+1) |
| ObjLoader.FaceAppendsFan | OpenGL/src/glengine/src/ObjLoader.cpp:114-141 | a face of fewer than 3 elements changes nothing; otherwise the pools are kept, the fan's corners are appended resolved against the current pools, one index each |
| ObjLoader.AddFanIsAddCorners | OpenGL/src/glengine/src/ObjLoader.cpp:116-140 | emitting triangle by triangle equals emitting the fan's corners one by one |
| ObjLoader.AddFanLength | OpenGL/src/glengine/src/ObjLoader.cpp:116-138 | j-1 fan triangles add 3(j-1) indices |
| ObjLoader.FaceAddsWholeTriangles | OpenGL/src/glengine/src/ObjLoader.cpp:114-141 | after a face the index count is still a multiple of 3 |
| ObjLoader.ParseFaceLength | OpenGL/src/glengine/src/ObjLoader.cpp:113 | a parsed face has one element per token |
| ObjLoader.AddCornersAppends | OpenGL/src/glengine/src/ObjLoader.cpp:120-139 | corners leave the pools unchanged, append their resolved triplets, and add one index each |
| ObjLoader.AddCornersAppend | OpenGL/src/glengine/src/ObjLoader.cpp:117-140 | emitting s then t equals emitting s + t, errors included |
| ObjLoader.CornerHitKeepsValid | OpenGL/src/glengine/src/ObjLoader.cpp:127-129 | a cache hit appends the cached number and keeps the invariant |
| ObjLoader.CornerMissKeepsValid | OpenGL/src/glengine/src/ObjLoader.cpp:130-138 | a cache miss appends one vertex built from the pools, numbered after all earlier ones, caches it, and keeps the invariant |
| ObjLoader.AddCornerKeepsValid | OpenGL/src/glengine/src/ObjLoader.cpp:121-138 | every corner keeps the invariant |
| ObjLoader.AddCornersKeepsValid | OpenGL/src/glengine/src/ObjLoader.cpp:120-139 | a corner sequence keeps the invariant |
| ObjLoader.AddFanKeepsValid | OpenGL/src/glengine/src/ObjLoader.cpp:117-141 | every fan triangle keeps the invariant |
| ObjLoader.FaceKeepsValid | OpenGL/src/glengine/src/ObjLoader.cpp:114-141 | a face keeps the invariant |
| ObjLoader.PoolGrowthKeepsValid | OpenGL/src/glengine/src/ObjLoader.cpp:104-109 | appending to the pools keeps the invariant: built vertices still match their triplets |
| ObjLoader.DispatchKeepsValid | OpenGL/src/glengine/src/ObjLoader.cpp:104-143 | each head keeps the invariant and a whole number of triangles |
| ObjLoader.StepKeepsValid | OpenGL/src/glengine/src/ObjLoader.cpp:100-143 | each line keeps the invariant and a whole number of triangles |
| ObjLoader.RunKeepsValid | OpenGL/src/glengine/src/ObjLoader.cpp:99-144 | the whole line loop keeps the invariant and a whole number of triangles |
| ObjLoader.StartValid | OpenGL/src/glengine/src/ObjLoader.cpp:87-96 | the empty pools, mesh and cache satisfy the invariant |
| ObjLoader.LoadDeduplicates | OpenGL/src/glengine/src/ObjLoader.cpp:96-141 | for every file that loads: indices are whole triangles, each below the vertex count; two corners share an index exactly when their resolved triplets are equal; there is one vertex per distinct triplet, built from its pool entries; numbering follows first occurrence |
| ObjLoader.FirstOccurrence | OpenGL/src/glengine/src/ObjLoader.cpp:127-138 | a new triplet gets the next vertex number; a repeated one gets an earlier number |
| ObjLoader.BadCornerThrows | OpenGL/src/glengine/src/ObjLoader.cpp:131-134 | a corner throws exactly when its resolved position is outside its pool or its texture or normal index is past its pool's end; a negative texture or normal index leaves that member zero |
| ObjLoader.OutOfRangeMembers | OpenGL/src/glengine/src/ObjLoader.cpp:122-134 | a texture or normal index past the end of its pool makes the corner throw `out_of_range`; one below minus the pool size leaves that member zero |
| ObjLoader.AbsentMemberTakesLast | OpenGL/src/glengine/src/ObjLoader.cpp:122-134 | an absent (-1) texture or normal member takes the last declared entry of its pool, and zero only while the pool is empty |
| ObjLoader.LoadedMeshInBounds | OpenGL/src/glengine/src/ObjLoader.cpp:155-161 | every index of a loaded mesh names a vertex, so the normal pass reads in bounds |
| ObjLoader.IgnoredLinesRun | OpenGL/src/glengine/src/ObjLoader.cpp:100-143 | blank lines, comments and unhandled heads leave the state unchanged |
| ObjLoader.IgnoredLinesAddNothing | OpenGL/src/glengine/src/ObjLoader.cpp:100-143 | such lines can be inserted anywhere without changing the result |
| ObjLoader.PoolLinesAppend | OpenGL/src/glengine/src/ObjLoader.cpp:104-109 | a v line appends its parsed vec3 to the positions, a vt line its vec2 to the texture coordinates, a vn line its vec3 to the normals; nothing else changes |
| ObjLoader.RunAppend | OpenGL/src/glengine/src/ObjLoader.cpp:99-144 | reading p then q equals reading p + q |
| ObjLoader.ErrorIsFinal | OpenGL/src/glengine/src/ObjLoader.cpp:99-144 | an exception ends the line loop: later lines do not matter |
| ObjLoader.LineErrorIsFinal | OpenGL/src/glengine/src/ObjLoader.cpp:82-177 | the first throwing line decides the result, whatever `genNormals` is |
| ObjLoader.FaceErrorIsFinal | OpenGL/src/glengine/src/ObjLoader.cpp:113 | the first bad token of a face decides its exception |
| ObjLoader.ParseFaceErrorPrefix | OpenGL/src/glengine/src/ObjLoader.cpp:113 | once a prefix of the tokens fails, the face fails the same way |
| ObjLoader.AddCornersErrorPrefix | OpenGL/src/glengine/src/ObjLoader.cpp:120-139 | once a prefix of the corners fails, the sequence fails the same way |
| ObjLoader.FanErrorIsFinal | OpenGL/src/glengine/src/ObjLoader.cpp:117-141 | once a fan triangle fails, the rest of the fan is not emitted |
| MouseInput.ButtonState | OpenGL/src/glengine/src/Renderer.cpp:179-193 | a release gives NONE whatever the button; any other action on left, right or middle selects it; any other button keeps the state |
| MouseInput.Move | OpenGL/src/glengine/src/Renderer.cpp:200-228 | the last position becomes the event's; the button is kept; `firstMouse` survives only while no button is held; camera calls are made exactly when a button is held: two for right, one for left and middle |
| MouseInput.OrbitalCamera.constructor | OpenGL/src/glengine/include/glengine/orbitalCamera.hpp:34 | a new camera has received no calls |
| MouseInput.OrbitalCamera.Orbit | OpenGL/src/glengine/include/glengine/orbitalCamera.hpp:38 | logs `orbit(x, y)` |
| MouseInput.OrbitalCamera.Dolly | OpenGL/src/glengine/include/glengine/orbitalCamera.hpp:39 | logs `dolly(offset)` |
| MouseInput.OrbitalCamera.Track | OpenGL/src/glengine/include/glengine/orbitalCamera.hpp:40 | logs `track(offset)` |
| MouseInput.OrbitalCamera.Pedestal | OpenGL/src/glengine/include/glengine/orbitalCamera.hpp:41 | logs `pedestal(offset)` |
| MouseInput.OrbitalCamera.Zoom | OpenGL/src/glengine/include/glengine/orbitalCamera.hpp:42 | logs `zoom(offset)` |
| MouseInput.Renderer.constructor | OpenGL/src/glengine/src/Renderer.cpp:23-24 | last position (0, 0) from the initialiser list; state NONE and `firstMouse` true from the member defaults at Renderer.hpp:30-34; a fresh camera with no calls |
| MouseInput.Renderer.OnMouseButton | OpenGL/src/glengine/src/Renderer.cpp:176-196 | the fields become `ButtonState` of the event; no camera call |
| MouseInput.Renderer.OnMouseMove | OpenGL/src/glengine/src/Renderer.cpp:198-230 | the fields and the appended camera calls are exactly those of `Move` |
| MouseInput.Renderer.OnMouseScroll | OpenGL/src/glengine/src/Renderer.cpp:232-237 | fields unchanged; exactly `zoom(yoffset)` is appended; `xoffset` is not read |
| MouseInput.StateIsLastEffectiveButton | OpenGL/src/glengine/src/Renderer.cpp:176-196 | after any event sequence the button state is the effect of the last release or named-button press, or the initial state if there is none |
| MouseInput.FirstMouseNeverReturns | OpenGL/src/glengine/src/Renderer.cpp:206-210 | `firstMouse` is still true exactly when it started true and no move event came while a button was held; once cleared it never returns |
| MouseInput.FirstDragIsStill | OpenGL/src/glengine/src/Renderer.cpp:206-213 | the first held-button move dispatches with both offsets 0 |
| MouseInput.DispatchSums | OpenGL/src/glengine/src/Renderer.cpp:218-227 | for a held button, the y offsets of one drag step's camera calls sum to dy, and their x offsets sum to dx, or to 0 under the middle button |
| MouseInput.DragStep | OpenGL/src/glengine/src/Renderer.cpp:205-227 | one held-button move: the new position is recorded, `firstMouse` cleared, x offset = x - lastX and y offset = lastY - y (y inverted) |
| MouseInput.DragTelescopes | OpenGL/src/glengine/src/Renderer.cpp:212-227 | over a drag the offsets telescope: total y offset = start y - final y, total x offset = final x - start x (0 for middle) |
| MouseInput.IdleMovesIssueNoCalls | OpenGL/src/glengine/src/Renderer.cpp:201-204 | moves with no button held make no camera call and only record the last position |
| MouseInput.ScrollOnlyZooms | OpenGL/src/glengine/src/Renderer.cpp:232-237 | a scroll event leaves the state and appends exactly `zoom(yoffset)` |

## Left out

- File I/O is not modelled. The path, the `ifstream`, line reading and the open-failure exception (`ObjLoader.cpp:84-85,99`) are replaced by the lines as a `seq<string>` parameter.
- Float parsing of v, vt and vn coordinates is a parameter. `FloatLib.readVec3` and `FloatLib.readVec2` stand for the stream extraction, whatever it yields on malformed input.
- `glm::normalize` followed by the NaN test is a parameter, `unit`. The cross product, the sums and the 1e-8 comparison are computed over the reals, so single-precision rounding is not modelled.
- Coordinates are `real` everywhere: the `float` rounding in the buffer and the `(float)` casts of cursor positions (`Renderer.cpp:202-216`) are not modelled.
- ObjLoader.EmitCorner: vertex numbers are unbounded `nat`. The `uint32_t` cast of the vertex count (`ObjLoader.cpp:135`) would wrap only past 2^32 vertices. Likewise the `(int)` conversion of pool sizes (`ObjLoader.cpp:123-125`) only matters past 2^31 entries.
- `ObjLoader.Load` threads the loader's locals as one `Builder` value through its loops, instead of mutating vectors and a hash map. These are function-local in the source, so no aliasing is lost. `ObjNormals.Regenerate` likewise builds its accumulators and the new vertex list as sequences rather than writing them in place.
- The `reserve` calls (`ObjLoader.cpp:87-94`, `ObjLoader.hpp:22`) only set capacity and are left out.
- `TripletHash`, `TripletEq` and `starts_with` are left out. The cache is a `map<Triplet, nat>` keyed on equality of the three members, which is what `TripletEq` tests; `starts_with` is never called.
- `ObjLoader::generateNormals` is declared in the header but never defined, so it is left out. The `ObjVertex` type used at `ObjLoader.cpp:131` is modelled as the header's `Vertex`.
- The ImGui capture test is commented out in the source and replaced by `if (1)`, so the handlers run unconditionally.
- The `mods` argument of `onMouseButton` and the `xoffset` argument of `onMouseScroll` are accepted and not read, as in the source.
- The orbital camera's numerics (`orbitalCamera.cpp`) are left out. The camera is the log of calls made on it.
- The Renderer constructor's GL set-up, `draw` and the destructor are left out, as are shaders, the window, the logger and the application's callback wiring; all are calls into GL, GLFW or console output. The vertex attribute layout the constructor declares is kept only as the constants `Stride`, `PosOffset`, `NormalOffset` and `UvOffset`.
