/** ObjLoader::load (glengine/src/ObjLoader.cpp): OBJ text lines to a
    deduplicated vertex/index buffer.

    The specification is a fold over the lines (`Run`) on a `Builder` that
    holds the loader's locals: the three attribute pools, the output vertices
    and indices, and the triplet cache. It also records `corners`, the
    resolved triplet of every emitted triangle corner in order; the
    properties of deduplication are stated against that history. `Load` is
    the imperative loader, proved equal to the specification. */
module ObjLoader {
  import opened Geometry
  import opened ObjText
  import ObjNormals

  /** The floating-point library calls the loader makes, left abstract:
      the stream extraction of three floats (a v or vn line) or two floats (a
      vt line) from the words after the head, and glm::normalize followed by
      the NaN test. */
  datatype FloatLib = FloatLib(
    readVec3: seq<string> -> Vec3,
    readVec2: seq<string> -> Vec2,
    unit: Vec3 -> Option<Vec3>)

  /** The three attribute pools, filled in file order and never reordered. */
  datatype Pools = Pools(positions: seq<Vec3>, uvs: seq<Vec2>, normals: seq<Vec3>)

  /** The loader's state: the pools, the output vertices and indices, the
      triplet cache, and (ghost) the resolved triplet of every corner emitted
      so far. */
  datatype Builder = Builder(
    pools: Pools,
    vertices: seq<Vertex>,
    indices: seq<nat>,
    cache: map<Triplet, nat>,
    ghost corners: seq<Triplet>)

  const Start := Builder(Pools([], [], []), [], [], map[], [])

  /** fix_index applied to each member against the current pool sizes. */
  function Resolve(t: Triplet, p: Pools): Triplet
  {
    Triplet(FixIndex(t.v, |p.positions|), FixIndex(t.vt, |p.uvs|), FixIndex(t.vn, |p.normals|))
  }

  /** The `.at` calls succeed: the position index is inside its pool, and a
      texture or normal index that is not negative is inside its pool. */
  predicate Fetchable(k: Triplet, p: Pools)
  {
    0 <= k.v < |p.positions| && k.vt < |p.uvs| && k.vn < |p.normals|
  }

  /** The vertex built on a cache miss; a negative texture or normal index
      leaves that member zero. */
  function MakeVertex(k: Triplet, p: Pools): Vertex
    requires Fetchable(k, p)
  {
    Vertex(p.positions[k.v],
           if k.vn >= 0 then p.normals[k.vn] else Zero3,
           if k.vt >= 0 then p.uvs[k.vt] else Zero2)
  }

  /** One triangle corner: resolve, then reuse the cached vertex or build,
      append and cache a new one; the corner's vertex number is appended to
      the index list. */
  function AddCorner(b: Builder, t: Triplet): Result<Builder>
  {
    var k := Resolve(t, b.pools);
    if k in b.cache then
      Ok(b.(indices := b.indices + [b.cache[k]], corners := b.corners + [k]))
    else if !Fetchable(k, b.pools) then
      Err(IndexOutOfRange)
    else
      var n := |b.vertices|;
      Ok(b.(vertices := b.vertices + [MakeVertex(k, b.pools)],
            cache := b.cache[k := n],
            indices := b.indices + [n],
            corners := b.corners + [k]))
  }

  function AddCorners(b: Builder, ts: seq<Triplet>): Result<Builder>
  {
    if ts == [] then Ok(b)
    else
      var b' :- AddCorners(b, ts[..|ts| - 1]);
      AddCorner(b', ts[|ts| - 1])
  }

  /** The corners of the fan triangles (0, i, i+1) for 1 <= i < j, in order. */
  function FanOrder(face: seq<Triplet>, j: nat): seq<Triplet>
    requires j < |face|
  {
    if j <= 1 then [] else FanOrder(face, j - 1) + Triangle(face, j - 1)
  }

  /** Fan triangle i of a face: its first element and elements i and i+1. */
  function Triangle(face: seq<Triplet>, i: nat): seq<Triplet>
    requires i + 1 < |face|
  {
    [face[0], face[i], face[i + 1]]
  }

  /** The t-th group of three corners of a corner list. */
  function TriangleAt(s: seq<Triplet>, t: nat): seq<Triplet>
    requires 3 * t + 3 <= |s|
  {
    s[3 * t..3 * t + 3]
  }

  /** A face with fewer than three elements adds nothing; otherwise it is
      fan-triangulated around its first element. */
  function AddFace(b: Builder, face: seq<Triplet>): Result<Builder>
  {
    if |face| < 3 then Ok(b) else AddFan(b, face, |face| - 1)
  }

  /** The fan triangles (0, i, i+1) for 1 <= i < j, corner by corner. */
  function AddFan(b: Builder, face: seq<Triplet>, j: nat): Result<Builder>
    requires j < |face|
  {
    if j <= 1 then Ok(b)
    else
      var m :- AddFan(b, face, j - 1);
      AddCorners(m, Triangle(face, j - 1))
  }

  /** Every word after `f` goes through parse_element, before the size test. */
  function ParseFace(toks: seq<string>): Result<seq<Triplet>>
  {
    if toks == [] then Ok([])
    else
      var face :- ParseFace(toks[..|toks| - 1]);
      var t :- ElementOf(toks[|toks| - 1]);
      Ok(face + [t])
  }

  /** The head of a line: its first word, or "" when it has none. */
  function Head(line: string): string
  {
    Split(line).0
  }

  /** A line the loader skips: empty, a comment, or an unhandled head. */
  predicate Ignored(line: string)
  {
    line == [] || line[0] == '#' || Head(line) !in {"v", "vt", "vn", "f"}
  }

  /** The words of a line: the head, and the words after it. */
  function Split(line: string): (string, seq<string>)
  {
    var toks := Tokens(line);
    if toks == [] then ("", []) else (toks[0], toks[1..])
  }

  /** What a line does once its head is known. */
  function Dispatch(b: Builder, head: string, args: seq<string>, lib: FloatLib): Result<Builder>
  {
    if head == "v" then Ok(b.(pools := b.pools.(positions := b.pools.positions + [lib.readVec3(args)])))
    else if head == "vt" then Ok(b.(pools := b.pools.(uvs := b.pools.uvs + [lib.readVec2(args)])))
    else if head == "vn" then Ok(b.(pools := b.pools.(normals := b.pools.normals + [lib.readVec3(args)])))
    else if head == "f" then
      var face :- ParseFace(args);
      AddFace(b, face)
    else Ok(b)
  }

  /** One line of the file: empty lines and comments are skipped. */
  function Step(b: Builder, line: string, lib: FloatLib): Result<Builder>
  {
    if line == [] || line[0] == '#' then Ok(b)
    else Dispatch(b, Split(line).0, Split(line).1, lib)
  }

  /** The lines in order, stopping at the first exception. */
  function Run(b: Builder, lines: seq<string>, lib: FloatLib): Result<Builder>
  {
    if lines == [] then Ok(b)
    else
      var b' :- Run(b, lines[..|lines| - 1], lib);
      Step(b', lines[|lines| - 1], lib)
  }

  // ---------------------------------------------------------------------
  // First-occurrence deduplication of a sequence

  /** The elements of s without repetitions, in order of first occurrence. */
  function Distinct<T(==)>(s: seq<T>): seq<T>
  {
    if s == [] then []
    else
      var d := Distinct(s[..|s| - 1]);
      if s[|s| - 1] in d then d else d + [s[|s| - 1]]
  }

  predicate NoDuplicates<T(==)>(s: seq<T>)
  {
    forall i, j | 0 <= i < j < |s| :: s[i] != s[j]
  }

  /** Deduplication keeps exactly the elements of s, once each. */
  lemma {:induction false} DistinctMembers<T>(s: seq<T>)
    ensures forall x :: x in Distinct(s) <==> x in s
    ensures NoDuplicates(Distinct(s))
  {
    if s != [] {
      DistinctMembers(s[..|s| - 1]);
    }
  }

  lemma {:induction false} DistinctProperties<T>(s: seq<T>)
    ensures forall x :: x in Distinct(s) <==> x in s
    ensures NoDuplicates(Distinct(s))
    ensures |Distinct(s)| == |set x | x in s|
  {
    DistinctMembers(s);
    if s != [] {
      var p, x := s[..|s| - 1], s[|s| - 1];
      DistinctProperties(p);
      assert s == p + [x];
      var before := set y | y in p;
      assert (set y | y in s) == before + {x};
      if x !in p {
        assert x !in before;
        assert |before + {x}| == |before| + 1;
      } else {
        assert before + {x} == before;
      }
    }
  }

  lemma DistinctSnoc<T>(s: seq<T>, x: T)
    ensures Distinct(s + [x]) == if x in s then Distinct(s) else Distinct(s) + [x]
  {
    assert (s + [x])[..|s|] == s;
    DistinctMembers(s);
  }

  /** The deduplication of a prefix is a prefix of the deduplication. */
  lemma {:induction false} DistinctPrefix<T>(s: seq<T>, i: nat)
    requires i <= |s|
    ensures |Distinct(s[..i])| <= |Distinct(s)|
    ensures Distinct(s[..i]) == Distinct(s)[..|Distinct(s[..i])|]
  {
    if i < |s| {
      var p := s[..|s| - 1];
      assert p[..i] == s[..i];
      DistinctPrefix(p, i);
    } else {
      assert s[..i] == s;
    }
  }

  // ---------------------------------------------------------------------
  // The loader invariant

  /** The cache maps exactly the distinct resolved corners, each to its
      position in first-occurrence order. */
  ghost predicate CacheInverts(cache: map<Triplet, nat>, d: seq<Triplet>)
  {
    && (forall j | 0 <= j < |d| :: d[j] in cache && cache[d[j]] == j)
    && (forall k | k in cache :: cache[k] < |d| && d[cache[k]] == k)
  }

  /** Vertex j was built from the j-th distinct corner. */
  ghost predicate VerticesBuilt(vertices: seq<Vertex>, d: seq<Triplet>, p: Pools)
  {
    && |vertices| == |d|
    && forall j | 0 <= j < |d| :: Fetchable(d[j], p) && vertices[j] == MakeVertex(d[j], p)
  }

  /** The index of every corner is the cache entry of its resolved triplet. */
  ghost predicate IndicesFollow(indices: seq<nat>, corners: seq<Triplet>, cache: map<Triplet, nat>)
  {
    && |indices| == |corners|
    && forall i | 0 <= i < |corners| :: corners[i] in cache && indices[i] == cache[corners[i]]
  }

  /** The cache, the vertices and the index list agree with the corner
      history. */
  ghost predicate Valid(b: Builder)
  {
    var d := Distinct(b.corners);
    CacheInverts(b.cache, d) && VerticesBuilt(b.vertices, d, b.pools) && IndicesFollow(b.indices, b.corners, b.cache)
  }

  /** Each pool only had entries appended. */
  predicate PoolsGrew(p: Pools, p': Pools)
  {
    && |p.positions| <= |p'.positions| && p'.positions[..|p.positions|] == p.positions
    && |p.uvs| <= |p'.uvs| && p'.uvs[..|p.uvs|] == p.uvs
    && |p.normals| <= |p'.normals| && p'.normals[..|p.normals|] == p.normals
  }

  /** A cached vertex stays what it was built as when the pools grow. */
  lemma VerticesGrow(vertices: seq<Vertex>, d: seq<Triplet>, p: Pools, p': Pools)
    requires VerticesBuilt(vertices, d, p) && PoolsGrew(p, p')
    ensures VerticesBuilt(vertices, d, p')
  {
    forall j | 0 <= j < |d|
      ensures Fetchable(d[j], p') && vertices[j] == MakeVertex(d[j], p')
    {
      var k := d[j];
      assert p'.positions[k.v] == p'.positions[..|p.positions|][k.v];
      if k.vt >= 0 {
        assert p'.uvs[k.vt] == p'.uvs[..|p.uvs|][k.vt];
      }
      if k.vn >= 0 {
        assert p'.normals[k.vn] == p'.normals[..|p.normals|][k.vn];
      }
    }
  }

  lemma PoolGrowthKeepsValid(b: Builder, p': Pools)
    requires Valid(b) && PoolsGrew(b.pools, p')
    ensures Valid(b.(pools := p'))
  {
    VerticesGrow(b.vertices, Distinct(b.corners), b.pools, p');
  }

  lemma CacheExtend(cache: map<Triplet, nat>, d: seq<Triplet>, k: Triplet)
    requires CacheInverts(cache, d) && k !in cache
    ensures CacheInverts(cache[k := |d|], d + [k])
  {
    var c', d' := cache[k := |d|], d + [k];
    forall j | 0 <= j < |d'|
      ensures d'[j] in c' && c'[d'[j]] == j
    {
      if j < |d| {
        assert d'[j] == d[j] && d[j] in cache;
      }
    }
    forall x | x in c'
      ensures c'[x] < |d'| && d'[c'[x]] == x
    {
      if x != k {
        assert x in cache;
      }
    }
  }

  lemma VerticesSnoc(vertices: seq<Vertex>, d: seq<Triplet>, p: Pools, k: Triplet)
    requires VerticesBuilt(vertices, d, p) && Fetchable(k, p)
    ensures VerticesBuilt(vertices + [MakeVertex(k, p)], d + [k], p)
  {
    var vs', d' := vertices + [MakeVertex(k, p)], d + [k];
    forall j | 0 <= j < |d'|
      ensures Fetchable(d'[j], p) && vs'[j] == MakeVertex(d'[j], p)
    {
      if j < |d| {
        assert d'[j] == d[j] && vs'[j] == vertices[j];
      }
    }
  }

  lemma IndicesSnoc(indices: seq<nat>, corners: seq<Triplet>, cache: map<Triplet, nat>, cache': map<Triplet, nat>, k: Triplet)
    requires IndicesFollow(indices, corners, cache)
    requires forall x | x in cache :: x in cache' && cache'[x] == cache[x]
    requires k in cache'
    ensures IndicesFollow(indices + [cache'[k]], corners + [k], cache')
  {
    var is', cs' := indices + [cache'[k]], corners + [k];
    forall i | 0 <= i < |cs'|
      ensures cs'[i] in cache' && is'[i] == cache'[cs'[i]]
    {
      if i < |corners| {
        assert cs'[i] == corners[i] && is'[i] == indices[i];
      }
    }
  }

  /** A cache hit appends the cached number and creates no vertex. */
  lemma CornerHitKeepsValid(b: Builder, k: Triplet)
    requires Valid(b) && k in b.cache
    ensures Valid(b.(indices := b.indices + [b.cache[k]], corners := b.corners + [k]))
  {
    var d := Distinct(b.corners);
    DistinctProperties(b.corners);
    assert d[b.cache[k]] == k;
    DistinctSnoc(b.corners, k);
    IndicesSnoc(b.indices, b.corners, b.cache, b.cache, k);
  }

  /** A cache miss appends one vertex, numbered after all earlier ones. */
  lemma CornerMissKeepsValid(b: Builder, k: Triplet)
    requires Valid(b) && k !in b.cache && Fetchable(k, b.pools)
    ensures var n := |b.vertices|;
      Valid(b.(vertices := b.vertices + [MakeVertex(k, b.pools)],
               cache := b.cache[k := n],
               indices := b.indices + [n],
               corners := b.corners + [k]))
  {
    var d := Distinct(b.corners);
    assert k !in b.corners;
    DistinctSnoc(b.corners, k);
    CacheExtend(b.cache, d, k);
    VerticesSnoc(b.vertices, d, b.pools, k);
    IndicesSnoc(b.indices, b.corners, b.cache, b.cache[k := |d|], k);
  }

  lemma AddCornerKeepsValid(b: Builder, t: Triplet)
    requires Valid(b)
    requires AddCorner(b, t).Ok?
    ensures Valid(AddCorner(b, t).value)
  {
    var k := Resolve(t, b.pools);
    if k in b.cache {
      CornerHitKeepsValid(b, k);
    } else {
      CornerMissKeepsValid(b, k);
    }
  }

  /** A list of triplets resolved against one set of pools. */
  function ResolveAll(ts: seq<Triplet>, p: Pools): (r: seq<Triplet>)
    ensures |r| == |ts|
  {
    if ts == [] then [] else ResolveAll(ts[..|ts| - 1], p) + [Resolve(ts[|ts| - 1], p)]
  }

  lemma {:induction false} AddCornersKeepsValid(b: Builder, ts: seq<Triplet>)
    requires Valid(b)
    requires AddCorners(b, ts).Ok?
    ensures Valid(AddCorners(b, ts).value)
  {
    if ts != [] {
      var p := ts[..|ts| - 1];
      AddCornersKeepsValid(b, p);
      AddCornerKeepsValid(AddCorners(b, p).value, ts[|ts| - 1]);
    }
  }

  /** Adding corners leaves the pools alone, appends one index per corner,
      and records the corners resolved against those pools. */
  lemma {:induction false} AddCornersAppends(b: Builder, ts: seq<Triplet>)
    requires AddCorners(b, ts).Ok?
    ensures var b' := AddCorners(b, ts).value;
      && b'.pools == b.pools
      && b'.corners == b.corners + ResolveAll(ts, b.pools)
      && |b'.indices| == |b.indices| + |ts|
  {
    if ts != [] {
      var p := ts[..|ts| - 1];
      AddCornersAppends(b, p);
      var m := AddCorners(b, p).value;
      assert AddCorners(b, ts).value.corners == (b.corners + ResolveAll(p, b.pools)) + [Resolve(ts[|ts| - 1], b.pools)];
    }
  }

  /** The fan of a face: 3 corners per triangle, in triangle order. */
  lemma {:induction false} FanTriangles(face: seq<Triplet>, j: nat)
    requires 1 <= j < |face|
    ensures |FanOrder(face, j)| == 3 * (j - 1)
    ensures forall i | 1 <= i < j :: TriangleAt(FanOrder(face, j), i - 1) == Triangle(face, i)
  {
    if j > 1 {
      FanTriangles(face, j - 1);
      var f := FanOrder(face, j - 1);
      forall i | 1 <= i < j
        ensures TriangleAt(FanOrder(face, j), i - 1) == Triangle(face, i)
      {
        if i < j - 1 {
          assert TriangleAt(FanOrder(face, j), i - 1) == TriangleAt(f, i - 1);
        }
      }
    }
  }

  lemma {:induction false} ParseFaceLength(toks: seq<string>)
    requires ParseFace(toks).Ok?
    ensures |ParseFace(toks).value| == |toks|
  {
    if toks != [] {
      ParseFaceLength(toks[..|toks| - 1]);
    }
  }

  /** A face appends exactly its fan: nothing when it has fewer than three
      elements, otherwise the corners of FanOrder (see FanTriangles for its
      triangles), each resolved against the pools as they stand when the face
      is read, and one index per corner. */
  lemma FaceAppendsFan(b: Builder, face: seq<Triplet>)
    requires AddFace(b, face).Ok?
    ensures var b' := AddFace(b, face).value;
      && b'.pools == b.pools
      && (|face| < 3 ==> b' == b)
      && (|face| >= 3 ==>
            && b'.corners == b.corners + ResolveAll(FanOrder(face, |face| - 1), b.pools)
            && |b'.indices| == |b.indices| + |FanOrder(face, |face| - 1)|)
  {
    if |face| >= 3 {
      AddFanIsAddCorners(b, face, |face| - 1);
      AddCornersAppends(b, FanOrder(face, |face| - 1));
    }
  }

  /** Each fan triangle keeps the invariant. */
  lemma {:induction false} AddFanKeepsValid(b: Builder, face: seq<Triplet>, j: nat)
    requires 1 <= j < |face|
    requires Valid(b)
    requires AddFan(b, face, j).Ok?
    ensures Valid(AddFan(b, face, j).value)
  {
    if j > 1 {
      AddFanKeepsValid(b, face, j - 1);
      AddCornersKeepsValid(AddFan(b, face, j - 1).value, Triangle(face, j - 1));
    }
  }

  lemma SnocPrefix<T>(s: seq<T>, x: T)
    ensures (s + [x])[..|s|] == s
  {
  }

  /** Every line keeps the invariant and adds whole triangles only. */
  lemma DispatchKeepsValid(b: Builder, head: string, args: seq<string>, lib: FloatLib)
    requires Valid(b) && |b.indices| % 3 == 0
    requires Dispatch(b, head, args, lib).Ok?
    ensures var b' := Dispatch(b, head, args, lib).value;
      Valid(b') && |b'.indices| % 3 == 0
  {
    if head == "v" {
      var p' := b.pools.(positions := b.pools.positions + [lib.readVec3(args)]);
      SnocPrefix(b.pools.positions, lib.readVec3(args));
      PoolGrowthKeepsValid(b, p');
    } else if head == "vt" {
      var p' := b.pools.(uvs := b.pools.uvs + [lib.readVec2(args)]);
      SnocPrefix(b.pools.uvs, lib.readVec2(args));
      PoolGrowthKeepsValid(b, p');
    } else if head == "vn" {
      var p' := b.pools.(normals := b.pools.normals + [lib.readVec3(args)]);
      SnocPrefix(b.pools.normals, lib.readVec3(args));
      PoolGrowthKeepsValid(b, p');
    } else if head == "f" {
      FaceKeepsValid(b, ParseFace(args).value);
      FaceAddsWholeTriangles(b, ParseFace(args).value);
    }
  }

  /** A face keeps the invariant. */
  lemma FaceKeepsValid(b: Builder, face: seq<Triplet>)
    requires Valid(b)
    requires AddFace(b, face).Ok?
    ensures Valid(AddFace(b, face).value)
  {
    if |face| >= 3 {
      AddFanKeepsValid(b, face, |face| - 1);
    }
  }

  /** Fan triangle j-1 is the last of j-1 triangles, three indices each. */
  lemma {:induction false} AddFanLength(b: Builder, face: seq<Triplet>, j: nat)
    requires 1 <= j < |face|
    requires AddFan(b, face, j).Ok?
    ensures |AddFan(b, face, j).value.indices| == |b.indices| + 3 * (j - 1)
  {
    if j > 1 {
      AddFanLength(b, face, j - 1);
      AddCornersAppends(AddFan(b, face, j - 1).value, Triangle(face, j - 1));
    }
  }

  /** A face adds whole triangles only. */
  lemma FaceAddsWholeTriangles(b: Builder, face: seq<Triplet>)
    requires |b.indices| % 3 == 0
    requires AddFace(b, face).Ok?
    ensures |AddFace(b, face).value.indices| % 3 == 0
  {
    if |face| >= 3 {
      AddFanLength(b, face, |face| - 1);
      WholeTriangles(|b.indices|, |face| - 2);
    }
  }

  lemma WholeTriangles(n: nat, t: nat)
    requires n % 3 == 0
    ensures (n + 3 * t) % 3 == 0
  {
  }

  lemma StepKeepsValid(b: Builder, line: string, lib: FloatLib)
    requires Valid(b) && |b.indices| % 3 == 0
    requires Step(b, line, lib).Ok?
    ensures var b' := Step(b, line, lib).value;
      Valid(b') && |b'.indices| % 3 == 0
  {
    if line != [] && line[0] != '#' {
      DispatchKeepsValid(b, Split(line).0, Split(line).1, lib);
    }
  }

  lemma {:induction false} RunKeepsValid(b: Builder, lines: seq<string>, lib: FloatLib)
    requires Valid(b) && |b.indices| % 3 == 0
    requires Run(b, lines, lib).Ok?
    ensures var b' := Run(b, lines, lib).value;
      Valid(b') && |b'.indices| % 3 == 0
  {
    if lines != [] {
      RunKeepsValid(b, lines[..|lines| - 1], lib);
      StepKeepsValid(Run(b, lines[..|lines| - 1], lib).value, lines[|lines| - 1], lib);
    }
  }

  lemma StartValid()
    ensures Valid(Start) && |Start.indices| % 3 == 0
  {
    assert Distinct(Start.corners) == [];
  }

  // ---------------------------------------------------------------------
  // Properties of the loader

  /** Deduplication and the mesh invariant, for every file that loads: the
      index list is whole triangles of in-range vertex numbers, one per
      emitted corner; two corners share a vertex exactly when their resolved
      triplets are equal; there is one vertex per distinct resolved triplet,
      built from that triplet's pool entries; and vertices are numbered in
      order of first occurrence (a corner whose triplet is new gets the next
      number, a repeated one an earlier number). */
  lemma {:induction false} LoadDeduplicates(lines: seq<string>, lib: FloatLib)
    requires Run(Start, lines, lib).Ok?
    ensures var b := Run(Start, lines, lib).value;
      && |b.indices| % 3 == 0
      && |b.indices| == |b.corners|
      && (forall i | 0 <= i < |b.indices| :: b.indices[i] < |b.vertices|)
      && (forall i, j | 0 <= i < |b.indices| && 0 <= j < |b.indices| ::
            b.indices[i] == b.indices[j] <==> b.corners[i] == b.corners[j])
      && |b.vertices| == |Distinct(b.corners)| == |set k | k in b.corners|
      && (forall j | 0 <= j < |b.vertices| ::
            Fetchable(Distinct(b.corners)[j], b.pools) && b.vertices[j] == MakeVertex(Distinct(b.corners)[j], b.pools))
      && (forall i | 0 <= i < |b.corners| ::
            (b.corners[i] in b.corners[..i] <==> b.indices[i] < |Distinct(b.corners[..i])|)
            && (b.corners[i] !in b.corners[..i] ==> b.indices[i] == |Distinct(b.corners[..i])|))
  {
    StartValid();
    RunKeepsValid(Start, lines, lib);
    var b := Run(Start, lines, lib).value;
    var cs := b.corners;
    var d := Distinct(cs);
    DistinctProperties(cs);
    forall i, j | 0 <= i < |b.indices| && 0 <= j < |b.indices|
      ensures b.indices[i] == b.indices[j] <==> cs[i] == cs[j]
    {
      if b.indices[i] == b.indices[j] {
        assert d[b.cache[cs[i]]] == cs[i] && d[b.cache[cs[j]]] == cs[j];
      }
    }
    forall i | 0 <= i < |cs|
      ensures (cs[i] in cs[..i] <==> b.indices[i] < |Distinct(cs[..i])|)
      ensures cs[i] !in cs[..i] ==> b.indices[i] == |Distinct(cs[..i])|
    {
      FirstOccurrence(b, i);
    }
  }

  /** Vertex numbers are handed out in order of first occurrence. */
  lemma FirstOccurrence(b: Builder, i: nat)
    requires Valid(b) && i < |b.corners|
    ensures var cs := b.corners;
      && (cs[i] in cs[..i] <==> b.indices[i] < |Distinct(cs[..i])|)
      && (cs[i] !in cs[..i] ==> b.indices[i] == |Distinct(cs[..i])|)
  {
    var k := b.cache[b.corners[i]];
    assert b.indices[i] == k && k < |Distinct(b.corners)| && Distinct(b.corners)[k] == b.corners[i];
    NumberedAtFirstOccurrence(b.corners, i, k);
  }

  /** The position k of cs[i] in Distinct(cs) lies before the distinct
      prefix cs[..i] when cs[i] occurred earlier, and right after it
      otherwise. */
  lemma NumberedAtFirstOccurrence<T>(cs: seq<T>, i: nat, k: nat)
    requires i < |cs| && k < |Distinct(cs)| && Distinct(cs)[k] == cs[i]
    ensures cs[i] in cs[..i] <==> k < |Distinct(cs[..i])|
    ensures cs[i] !in cs[..i] ==> k == |Distinct(cs[..i])|
  {
    var d := Distinct(cs);
    var x := cs[i];
    var p := Distinct(cs[..i]);
    DistinctMembers(cs);
    DistinctMembers(cs[..i]);
    DistinctPrefix(cs, i);
    PrefixMembership(d, |p|, k);
    if x !in cs[..i] {
      assert cs[..i + 1] == cs[..i] + [x];
      DistinctSnoc(cs[..i], x);
      DistinctPrefix(cs, i + 1);
      assert d[|p|] == x;
    }
  }

  /** In a sequence without duplicates, the element at k lies in the first n
      entries exactly when k < n. */
  lemma PrefixMembership<T>(d: seq<T>, n: nat, k: nat)
    requires NoDuplicates(d) && n <= |d| && k < |d|
    ensures d[k] in d[..n] <==> k < n
  {
    if d[k] in d[..n] {
      var j :| 0 <= j < n && d[..n][j] == d[k];
      assert d[j] == d[k];
    }
  }

  /** A corner whose resolved position index is outside the position pool,
      or whose texture or normal index is past the end of its pool, makes the
      loader throw, even when the same triplet appeared before; a negative
      texture or normal index instead leaves that member zero. */
  lemma BadCornerThrows(b: Builder, t: Triplet)
    requires Valid(b)
    ensures !Fetchable(Resolve(t, b.pools), b.pools) <==> AddCorner(b, t) == Err(IndexOutOfRange)
    ensures var k := Resolve(t, b.pools);
      Fetchable(k, b.pools) && k.vt < 0 ==> MakeVertex(k, b.pools).uv == Zero2
    ensures var k := Resolve(t, b.pools);
      Fetchable(k, b.pools) && k.vn < 0 ==> MakeVertex(k, b.pools).normal == Zero3
  {
    var k := Resolve(t, b.pools);
    if k in b.cache {
      assert Distinct(b.corners)[b.cache[k]] == k;
    }
  }

  /** A texture or normal index outside the pool is not clamped. Past the
      end (`1/2` with one texture coordinate) the `.at` fetch throws; below
      minus the pool size (`1/-3` with one) it resolves to a negative index,
      and the member is silently left zero. */
  lemma OutOfRangeMembers(b: Builder, t: Triplet)
    requires Valid(b)
    ensures t.vt > |b.pools.uvs| || t.vn > |b.pools.normals| ==> AddCorner(b, t) == Err(IndexOutOfRange)
    ensures var k := Resolve(t, b.pools);
      Fetchable(k, b.pools) && t.vt < -|b.pools.uvs| ==> MakeVertex(k, b.pools).uv == Zero2
    ensures var k := Resolve(t, b.pools);
      Fetchable(k, b.pools) && t.vn < -|b.pools.normals| ==> MakeVertex(k, b.pools).normal == Zero3
  {
  }

  /** The default -1 of an absent texture or normal member is resolved like
      any negative OBJ index: a `v` or `v/vt` element takes the last texture
      coordinate or normal declared so far, and the member stays zero only
      while that pool is empty. */
  lemma AbsentMemberTakesLast(t: Triplet, p: Pools)
    requires Fetchable(Resolve(t, p), p)
    ensures t.vt == -1 ==>
      MakeVertex(Resolve(t, p), p).uv == (if |p.uvs| == 0 then Zero2 else p.uvs[|p.uvs| - 1])
    ensures t.vn == -1 ==>
      MakeVertex(Resolve(t, p), p).normal == (if |p.normals| == 0 then Zero3 else p.normals[|p.normals| - 1])
  {
  }

  /** Fold over a concatenation. */
  lemma {:induction false} RunAppend(b: Builder, p: seq<string>, q: seq<string>, lib: FloatLib)
    ensures Run(b, p + q, lib) == (var m :- Run(b, p, lib); Run(m, q, lib))
  {
    if q == [] {
      assert p + q == p;
    } else {
      var q' := q[..|q| - 1];
      RunAppend(b, p, q', lib);
      assert (p + q)[..|p + q| - 1] == p + q';
    }
  }

  /** No partial mesh: once a line throws, the rest of the file does not
      matter. */
  lemma ErrorIsFinal(b: Builder, p: seq<string>, q: seq<string>, lib: FloatLib)
    requires Run(b, p, lib).Err?
    ensures Run(b, p + q, lib) == Run(b, p, lib)
  {
    RunAppend(b, p, q, lib);
  }

  lemma {:induction false} IgnoredLinesRun(b: Builder, junk: seq<string>, lib: FloatLib)
    requires forall k | 0 <= k < |junk| :: Ignored(junk[k])
    ensures Run(b, junk, lib) == Ok(b)
  {
    if junk != [] {
      IgnoredLinesRun(b, junk[..|junk| - 1], lib);
    }
  }

  /** Blank lines, comments and lines whose head is not v, vt, vn or f can
      be inserted anywhere without changing the result. */
  lemma IgnoredLinesAddNothing(b: Builder, p: seq<string>, junk: seq<string>, q: seq<string>, lib: FloatLib)
    requires forall k | 0 <= k < |junk| :: Ignored(junk[k])
    ensures Run(b, p + junk + q, lib) == Run(b, p + q, lib)
  {
    RunAppend(b, p + junk, q, lib);
    RunAppend(b, p, junk, lib);
    RunAppend(b, p, q, lib);
    if Run(b, p, lib).Ok? {
      IgnoredLinesRun(Run(b, p, lib).value, junk, lib);
    }
  }

  /** A v, vt or vn line appends its parsed value to its own pool, whatever
      follows the head, and touches nothing else. */
  lemma PoolLinesAppend(b: Builder, line: string, lib: FloatLib)
    requires line != [] && line[0] != '#'
    requires Head(line) in {"v", "vt", "vn"}
    ensures Step(b, line, lib).Ok?
    ensures var b' := Step(b, line, lib).value;
      && b'.vertices == b.vertices && b'.indices == b.indices && b'.cache == b.cache && b'.corners == b.corners
      && (Head(line) == "v" ==> b'.pools == b.pools.(positions := b.pools.positions + [lib.readVec3(Split(line).1)]))
      && (Head(line) == "vt" ==> b'.pools == b.pools.(uvs := b.pools.uvs + [lib.readVec2(Split(line).1)]))
      && (Head(line) == "vn" ==> b'.pools == b.pools.(normals := b.pools.normals + [lib.readVec3(Split(line).1)]))
      && PoolsGrew(b.pools, b'.pools)
  {
    var args := Split(line).1;
    SnocPrefix(b.pools.positions, lib.readVec3(args));
    SnocPrefix(b.pools.uvs, lib.readVec2(args));
    SnocPrefix(b.pools.normals, lib.readVec3(args));
  }

  // ---------------------------------------------------------------------
  // The loader

  /** The mesh load returns, or the exception it throws. */
  function LoadResult(lines: seq<string>, genNormals: bool, lib: FloatLib): Result<ObjMesh>
  {
    var b :- Run(Start, lines, lib);
    var m := ObjMesh(b.vertices, b.indices);
    if ObjNormals.InBounds(m.vertices, m.indices) then Ok(ObjNormals.WithGeneratedNormals(m, genNormals, lib.unit))
    else Ok(m)
  }

  /** The token loop of an f line: every word after the head goes through
      parse_element, in order, and the first failure ends the line. */
  method ParseFaceTokens(args: seq<string>) returns (r: Result<seq<Triplet>>)
    ensures r == ParseFace(args)
  {
    var face: seq<Triplet> := [];
    for j := 0 to |args|
      invariant ParseFace(args[..j]) == Ok(face)
    {
      assert args[..j + 1][..j] == args[..j];
      var e := ParseElement(args[j]);
      if e.Err? {
        FaceErrorIsFinal(args, j + 1);
        return Err(e.error);
      }
      face := face + [e.value];
    }
    assert args[..|args|] == args;
    return Ok(face);
  }

  /** One corner: fix_index on each member, then the cache lookup, or the
      `.at` fetches, the push of the new vertex and the emplace. */
  method EmitCorner(b: Builder, it: Triplet) returns (r: Result<Builder>)
    ensures r == AddCorner(b, it)
  {
    var p := b.pools;
    var fixed := Triplet(FixIndex(it.v, |p.positions|), FixIndex(it.vt, |p.uvs|), FixIndex(it.vn, |p.normals|));
    if fixed in b.cache {
      return Ok(b.(indices := b.indices + [b.cache[fixed]], corners := b.corners + [fixed]));
    }
    if !(0 <= fixed.v < |p.positions|) || fixed.vt >= |p.uvs| || fixed.vn >= |p.normals| {
      return Err(IndexOutOfRange);
    }
    var v := Vertex(p.positions[fixed.v], Zero3, Zero2);
    if fixed.vt >= 0 {
      v := v.(uv := p.uvs[fixed.vt]);
    }
    if fixed.vn >= 0 {
      v := v.(normal := p.normals[fixed.vn]);
    }
    var newIndex := |b.vertices|;
    return Ok(b.(vertices := b.vertices + [v], cache := b.cache[fixed := newIndex],
                 indices := b.indices + [newIndex], corners := b.corners + [fixed]));
  }

  /** The fan loop over triangles (0, i, i+1). */
  method EmitFace(b: Builder, face: seq<Triplet>) returns (r: Result<Builder>)
    requires |face| >= 3
    ensures r == AddFan(b, face, |face| - 1)
  {
    var cur := b;
    var i := 1;
    while i + 1 < |face|
      invariant 1 <= i <= |face| - 1
      invariant AddFan(b, face, i) == Ok(cur)
    {
      var tri := [face[0], face[i], face[i + 1]];
      var next := EmitTriangle(cur, tri);
      if next.Err? {
        FanErrorIsFinal(b, face, i + 1, |face| - 1);
        return next;
      }
      cur := next.value;
      i := i + 1;
    }
    return Ok(cur);
  }

  /** The corner loop of one triangle. */
  method EmitTriangle(b: Builder, tri: seq<Triplet>) returns (r: Result<Builder>)
    ensures r == AddCorners(b, tri)
  {
    var cur := b;
    for k := 0 to |tri|
      invariant AddCorners(b, tri[..k]) == Ok(cur)
    {
      assert tri[..k + 1][..k] == tri[..k];
      var next := EmitCorner(cur, tri[k]);
      if next.Err? {
        AddCornersErrorPrefix(b, tri, k + 1);
        return next;
      }
      cur := next.value;
    }
    assert tri[..|tri|] == tri;
    return Ok(cur);
  }

  /** The body of the line loop: the skip test, the head, and the v, vt,
      vn and f branches. */
  method ReadLine(b: Builder, line: string, lib: FloatLib) returns (r: Result<Builder>)
    ensures r == Step(b, line, lib)
  {
    if line == [] || line[0] == '#' {
      return Ok(b);
    }
    var toks := Tokens(line);
    var head := if toks == [] then "" else toks[0];
    var args := if toks == [] then [] else toks[1..];
    assert (head, args) == Split(line);
    if head == "v" {
      r := Ok(b.(pools := b.pools.(positions := b.pools.positions + [lib.readVec3(args)])));
    } else if head == "vt" {
      r := Ok(b.(pools := b.pools.(uvs := b.pools.uvs + [lib.readVec2(args)])));
    } else if head == "vn" {
      r := Ok(b.(pools := b.pools.(normals := b.pools.normals + [lib.readVec3(args)])));
    } else if head == "f" {
      var face := ParseFaceTokens(args);
      if face.Err? {
        return Err(face.error);
      }
      if |face.value| < 3 {
        return Ok(b);
      }
      r := EmitFace(b, face.value);
    } else {
      r := Ok(b);
    }
  }

  /** ObjLoader::load over the lines of the file. */
  method Load(lines: seq<string>, genNormals: bool, lib: FloatLib) returns (r: Result<ObjMesh>)
    ensures r == LoadResult(lines, genNormals, lib)
  {
    var b := Start;
    for i := 0 to |lines|
      invariant Run(Start, lines[..i], lib) == Ok(b)
    {
      assert lines[..i + 1][..i] == lines[..i];
      var next := ReadLine(b, lines[i], lib);
      if next.Err? {
        LineErrorIsFinal(lines, i, lib);
        return Err(next.error);
      }
      b := next.value;
    }
    assert lines[..|lines|] == lines;
    LoadedMeshInBounds(lines, lib);

    var vertices := b.vertices;
    if genNormals {
      var needNormals := ObjNormals.AnyNormalMissing(vertices);
      if needNormals {
        vertices := ObjNormals.Regenerate(vertices, b.indices, lib.unit);
      }
    }
    r := Ok(ObjMesh(vertices, b.indices));
  }

  lemma LoadedMeshInBounds(lines: seq<string>, lib: FloatLib)
    requires Run(Start, lines, lib).Ok?
    ensures var b := Run(Start, lines, lib).value;
      ObjNormals.InBounds(b.vertices, b.indices)
  {
    LoadDeduplicates(lines, lib);
  }

  lemma FaceErrorIsFinal(args: seq<string>, j: nat)
    requires 0 < j <= |args|
    requires ParseFace(args[..j - 1]).Ok?
    requires ElementOf(args[j - 1]).Err?
    ensures ParseFace(args) == Err(ElementOf(args[j - 1]).error)
  {
    assert args[..j][..j - 1] == args[..j - 1];
    ParseFaceErrorPrefix(args, j);
  }

  lemma {:induction false} ParseFaceErrorPrefix(args: seq<string>, j: nat)
    requires j <= |args|
    requires ParseFace(args[..j]).Err?
    ensures ParseFace(args) == ParseFace(args[..j])
    decreases |args| - j
  {
    if j < |args| {
      assert args[..j + 1][..j] == args[..j];
      ParseFaceErrorPrefix(args, j + 1);
    } else {
      assert args[..j] == args;
    }
  }

  lemma {:induction false} AddCornersErrorPrefix(b: Builder, ts: seq<Triplet>, j: nat)
    requires j <= |ts|
    requires AddCorners(b, ts[..j]).Err?
    ensures AddCorners(b, ts) == AddCorners(b, ts[..j])
    decreases |ts| - j
  {
    if j < |ts| {
      assert ts[..j + 1][..j] == ts[..j];
      AddCornersErrorPrefix(b, ts, j + 1);
    } else {
      assert ts[..j] == ts;
    }
  }

  /** Corners in two runs. */
  lemma {:induction false} AddCornersAppend(b: Builder, s: seq<Triplet>, t: seq<Triplet>)
    ensures AddCorners(b, s + t) == (var m :- AddCorners(b, s); AddCorners(m, t))
  {
    if t == [] {
      assert s + t == s;
    } else {
      var t' := t[..|t| - 1];
      AddCornersAppend(b, s, t');
      assert (s + t)[..|s + t| - 1] == s + t';
    }
  }

  /** A triangle that throws ends the whole face with that exception. */
  lemma {:induction false} FanErrorIsFinal(b: Builder, face: seq<Triplet>, i: nat, j: nat)
    requires 1 <= i <= j < |face|
    requires AddFan(b, face, i).Err?
    ensures AddFan(b, face, j) == AddFan(b, face, i)
    decreases j
  {
    if i < j {
      FanErrorIsFinal(b, face, i, j - 1);
    }
  }

  /** The triangle fold is the corner fold over the flattened fan. */
  lemma {:induction false} AddFanIsAddCorners(b: Builder, face: seq<Triplet>, j: nat)
    requires 1 <= j < |face|
    ensures AddFan(b, face, j) == AddCorners(b, FanOrder(face, j))
  {
    if j > 1 {
      AddFanIsAddCorners(b, face, j - 1);
      AddCornersAppend(b, FanOrder(face, j - 1), Triangle(face, j - 1));
    }
  }

  /** A line that throws is the outcome of the whole load, flag or not. */
  lemma LineErrorIsFinal(lines: seq<string>, i: nat, lib: FloatLib)
    requires i < |lines|
    requires Run(Start, lines[..i], lib).Ok?
    requires Step(Run(Start, lines[..i], lib).value, lines[i], lib).Err?
    ensures LoadResult(lines, true, lib) == LoadResult(lines, false, lib) ==
      Err(Step(Run(Start, lines[..i], lib).value, lines[i], lib).error)
  {
    RunStopsAt(lines, i, lib);
  }

  lemma RunStopsAt(lines: seq<string>, i: nat, lib: FloatLib)
    requires i < |lines|
    requires Run(Start, lines[..i], lib).Ok?
    ensures Step(Run(Start, lines[..i], lib).value, lines[i], lib).Err? ==>
      Run(Start, lines, lib) == Step(Run(Start, lines[..i], lib).value, lines[i], lib)
  {
    var pre := lines[..i + 1];
    assert pre[..i] == lines[..i];
    assert Run(Start, pre, lib) == Step(Run(Start, lines[..i], lib).value, lines[i], lib);
    assert lines == pre + lines[i + 1..];
    if Run(Start, pre, lib).Err? {
      ErrorIsFinal(Start, pre, lines[i + 1..], lib);
    }
  }
}
