/** Values produced by the OBJ loader (glengine/ObjLoader.hpp): vectors,
    vertices, the mesh, and the interleaved vertex buffer layout that the
    renderer declares to the GPU (stride 8, attribute offsets 0, 3 and 6).

    Coordinates are real numbers: single-precision rounding is not modelled. */
module Geometry {

  datatype Option<T> = None | Some(value: T)

  /** A glm::vec2 (texture coordinate). */
  datatype Vec2 = Vec2(x: real, y: real)

  /** A glm::vec3 (position or normal). */
  datatype Vec3 = Vec3(x: real, y: real, z: real)

  const Zero2 := Vec2(0.0, 0.0)
  const Zero3 := Vec3(0.0, 0.0, 0.0)

  function Add(a: Vec3, b: Vec3): Vec3 { Vec3(a.x + b.x, a.y + b.y, a.z + b.z) }

  function Sub(a: Vec3, b: Vec3): Vec3 { Vec3(a.x - b.x, a.y - b.y, a.z - b.z) }

  function Dot(a: Vec3, b: Vec3): real { a.x * b.x + a.y * b.y + a.z * b.z }

  function Cross(a: Vec3, b: Vec3): Vec3
  {
    Vec3(a.y * b.z - a.z * b.y, a.z * b.x - a.x * b.z, a.x * b.y - a.y * b.x)
  }

  /** One output vertex: position, normal, texture coordinate. */
  datatype Vertex = Vertex(pos: Vec3, normal: Vec3, uv: Vec2)

  /** The vertex attribute layout the renderer declares: 8 floats per vertex,
      position at offset 0, normal at offset 3, texture coordinate at offset 6. */
  const Stride: nat := 8
  const PosOffset: nat := 0
  const NormalOffset: nat := 3
  const UvOffset: nat := 6

  /** The 8 floats that the serialiser pushes for one vertex. */
  function Block(v: Vertex): seq<real>
  {
    [v.pos.x, v.pos.y, v.pos.z, v.normal.x, v.normal.y, v.normal.z, v.uv.x, v.uv.y]
  }

  /** The interleaved buffer: one block per vertex, in vertex order. */
  function Interleaved(vs: seq<Vertex>): seq<real>
  {
    if vs == [] then [] else Interleaved(vs[..|vs| - 1]) + Block(vs[|vs| - 1])
  }

  /** The vertex the GPU assembles for vertex number i of an interleaved buffer,
      reading three floats at offset 0, three at offset 3 and two at offset 6
      of the i-th stride. */
  function GpuVertex(data: seq<real>, i: nat): Vertex
    requires Stride * i + Stride <= |data|
  {
    var base := Stride * i;
    Vertex(Vec3(data[base + PosOffset], data[base + PosOffset + 1], data[base + PosOffset + 2]),
           Vec3(data[base + NormalOffset], data[base + NormalOffset + 1], data[base + NormalOffset + 2]),
           Vec2(data[base + UvOffset], data[base + UvOffset + 1]))
  }

  /** The buffer holds exactly 8 floats per vertex, and the block of vertex i
      sits at 8*i: position, then normal, then texture coordinate. */
  lemma {:induction false} InterleavedAt(vs: seq<Vertex>, i: nat)
    requires i < |vs|
    ensures |Interleaved(vs)| == Stride * |vs|
    ensures Interleaved(vs)[Stride * i + 0] == vs[i].pos.x
    ensures Interleaved(vs)[Stride * i + 1] == vs[i].pos.y
    ensures Interleaved(vs)[Stride * i + 2] == vs[i].pos.z
    ensures Interleaved(vs)[Stride * i + 3] == vs[i].normal.x
    ensures Interleaved(vs)[Stride * i + 4] == vs[i].normal.y
    ensures Interleaved(vs)[Stride * i + 5] == vs[i].normal.z
    ensures Interleaved(vs)[Stride * i + 6] == vs[i].uv.x
    ensures Interleaved(vs)[Stride * i + 7] == vs[i].uv.y
  {
    var n := |vs| - 1;
    InterleavedLength(vs[..n]);
    if i < n {
      InterleavedAt(vs[..n], i);
    }
  }

  lemma {:induction false} InterleavedLength(vs: seq<Vertex>)
    ensures |Interleaved(vs)| == Stride * |vs|
  {
    if vs != [] {
      InterleavedLength(vs[..|vs| - 1]);
    }
  }

  /** The serialiser and the attribute layout declared to the GPU agree: the
      GPU reads back, for every vertex number, exactly the mesh's vertex. */
  lemma GpuReadsEveryVertex(vs: seq<Vertex>)
    ensures |Interleaved(vs)| == Stride * |vs|
    ensures forall i: nat | i < |vs| :: GpuVertex(Interleaved(vs), i) == vs[i]
  {
    InterleavedLength(vs);
    forall i: nat | i < |vs|
      ensures GpuVertex(Interleaved(vs), i) == vs[i]
    {
      InterleavedAt(vs, i);
    }
  }

  /** The mesh returned by the loader: vertices in first-seen order, and a flat
      list of vertex numbers, three per triangle (unsigned 32-bit in the
      source; unbounded here). */
  datatype ObjMesh = ObjMesh(vertices: seq<Vertex>, indices: seq<nat>)
  {
    /** Builds the interleaved [pos, normal, uv] buffer by pushing 8 values per
        vertex. The mesh is a value, so it is unchanged. */
    method InterleavedPNV() returns (data: seq<real>)
      ensures data == Interleaved(vertices)
      ensures |data| == Stride * |vertices|
    {
      data := [];
      for i := 0 to |vertices|
        invariant data == Interleaved(vertices[..i])
      {
        var v := vertices[i];
        data := data + [v.pos.x];
        data := data + [v.pos.y];
        data := data + [v.pos.z];

        data := data + [v.normal.x];
        data := data + [v.normal.y];
        data := data + [v.normal.z];

        data := data + [v.uv.x];
        data := data + [v.uv.y];
        assert vertices[..i + 1][..i] == vertices[..i];
      }
      assert vertices[..|vertices|] == vertices;
      InterleavedLength(vertices);
    }
  }
}
