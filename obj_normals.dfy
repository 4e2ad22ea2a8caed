/** The optional normal-regeneration pass at the end of ObjLoader::load
    (glengine/src/ObjLoader.cpp). Only its structure is modelled exactly: the
    guard, which indices it reads, and that it replaces every normal or none.
    The face normal's cross product is computed exactly over the reals;
    glm::normalize together with the NaN test that follows it is a parameter
    `unit`, returning None where the normalised vector would hold a NaN. */
module ObjNormals {
  import opened Geometry

  /** The `1e-8f` threshold on a normal's squared length. */
  const Epsilon: real := 0.00000001

  /** The normal used when normalising an accumulated sum gives NaN. */
  const Fallback := Vec3(0.0, 0.0, 1.0)

  /** Every index names a vertex: the mesh invariant the parsing loop leaves. */
  predicate InBounds(vs: seq<Vertex>, idx: seq<nat>)
  {
    forall k | 0 <= k < |idx| :: idx[k] < |vs|
  }

  /** The guard: some vertex has a (near) zero normal. */
  predicate NeedsNormals(vs: seq<Vertex>)
  {
    exists i | 0 <= i < |vs| :: Dot(vs[i].normal, vs[i].normal) < Epsilon
  }

  /** The scan that decides whether normals are regenerated; it stops at the
      first vertex whose normal is too short. */
  method AnyNormalMissing(vs: seq<Vertex>) returns (need: bool)
    ensures need <==> exists i | 0 <= i < |vs| :: Dot(vs[i].normal, vs[i].normal) < Epsilon
  {
    need := false;
    var i := 0;
    while i < |vs|
      invariant 0 <= i <= |vs|
      invariant !need
      invariant forall j | 0 <= j < i :: Dot(vs[j].normal, vs[j].normal) >= Epsilon
    {
      if Dot(vs[i].normal, vs[i].normal) < Epsilon {
        need := true;
        return;
      }
      i := i + 1;
    }
  }

  /** The accumulators after the first t complete triangles: each triangle
      (ia, ib, ic) whose normalised face normal is not NaN adds it to the
      accumulators of its three corners, one after the other. */
  function Accumulated(vs: seq<Vertex>, idx: seq<nat>, unit: Vec3 -> Option<Vec3>, t: nat): (acc: seq<Vec3>)
    requires InBounds(vs, idx)
    requires 3 * t <= |idx|
    ensures |acc| == |vs|
  {
    if t == 0 then seq(|vs|, _ => Zero3)
    else
      var a := Accumulated(vs, idx, unit, t - 1);
      var i := 3 * (t - 1);
      AddFaceNormal(vs, a, idx[i], idx[i + 1], idx[i + 2], unit)
  }

  /** One triangle's step: its normalised face normal, unless NaN, is added
      to the accumulators of its three corners, one after the other. */
  function AddFaceNormal(vs: seq<Vertex>, a: seq<Vec3>, ia: nat, ib: nat, ic: nat, unit: Vec3 -> Option<Vec3>): (a': seq<Vec3>)
    requires |a| == |vs| && ia < |vs| && ib < |vs| && ic < |vs|
    ensures |a'| == |vs|
  {
    var A, B, C := vs[ia].pos, vs[ib].pos, vs[ic].pos;
    match unit(Cross(Sub(B, A), Sub(C, A)))
    case None => a
    case Some(n) =>
      var a1 := a[ia := Add(a[ia], n)];
      var a2 := a1[ib := Add(a1[ib], n)];
      a2[ic := Add(a2[ic], n)]
  }

  /** The normal written back for one accumulator. */
  function FinalNormal(unit: Vec3 -> Option<Vec3>, sum: Vec3): Vec3
  {
    match unit(sum)
    case Some(n) => n
    case None => Fallback
  }

  /** The vertices after regeneration: positions and texture coordinates
      kept, every normal overwritten from its accumulator. */
  function Regenerated(vs: seq<Vertex>, idx: seq<nat>, unit: Vec3 -> Option<Vec3>): seq<Vertex>
    requires InBounds(vs, idx)
  {
    var acc := Accumulated(vs, idx, unit, |idx| / 3);
    seq(|vs|, i requires 0 <= i < |vs| => vs[i].(normal := FinalNormal(unit, acc[i])))
  }

  /** The whole pass: it runs when `genNormals` is set and the guard holds. */
  function WithGeneratedNormals(m: ObjMesh, genNormals: bool, unit: Vec3 -> Option<Vec3>): ObjMesh
    requires InBounds(m.vertices, m.indices)
  {
    if genNormals && NeedsNormals(m.vertices) then
      m.(vertices := Regenerated(m.vertices, m.indices, unit))
    else m
  }

  /** The normal-regeneration block: the accumulation loop over complete
      index triples, with one accumulator per vertex, then the write-back loop
      that overwrites every vertex's normal with its normalised accumulator,
      or with the fallback where normalising gives NaN. */
  method Regenerate(vs: seq<Vertex>, idx: seq<nat>, unit: Vec3 -> Option<Vec3>) returns (out: seq<Vertex>)
    requires InBounds(vs, idx)
    ensures out == Regenerated(vs, idx, unit)
  {
    var acc: seq<Vec3> := seq(|vs|, _ => Zero3);
    var i, t := 0, 0;
    while i + 2 < |idx|
      invariant i == 3 * t <= |idx|
      invariant acc == Accumulated(vs, idx, unit, t)
    {
      var ia, ib, ic := idx[i], idx[i + 1], idx[i + 2];
      var A, B, C := vs[ia].pos, vs[ib].pos, vs[ic].pos;
      var n := unit(Cross(Sub(B, A), Sub(C, A)));
      if n.Some? {
        acc := acc[ia := Add(acc[ia], n.value)];
        acc := acc[ib := Add(acc[ib], n.value)];
        acc := acc[ic := Add(acc[ic], n.value)];
      }
      i, t := i + 3, t + 1;
    }
    assert t == |idx| / 3;

    out := vs;
    for j := 0 to |vs|
      invariant |out| == |vs|
      invariant forall k | 0 <= k < j :: out[k] == vs[k].(normal := FinalNormal(unit, acc[k]))
      invariant forall k | j <= k < |vs| :: out[k] == vs[k]
    {
      var n := unit(acc[j]);
      out := out[j := out[j].(normal := if n.Some? then n.value else Fallback)];
    }
  }

  /** Replaces all normals or none: without the flag or without a short
      normal the mesh is returned unchanged; otherwise every vertex keeps its
      position and texture coordinate and the index list is unchanged, and the
      new normals do not depend on the old ones at all. */
  lemma AllOrNone(m: ObjMesh, m': ObjMesh, genNormals: bool, unit: Vec3 -> Option<Vec3>)
    requires InBounds(m.vertices, m.indices)
    requires m'.indices == m.indices && |m'.vertices| == |m.vertices|
    requires forall i | 0 <= i < |m.vertices| :: m'.vertices[i].pos == m.vertices[i].pos && m'.vertices[i].uv == m.vertices[i].uv
    ensures var r := WithGeneratedNormals(m, genNormals, unit);
      && r.indices == m.indices
      && |r.vertices| == |m.vertices|
      && (forall i | 0 <= i < |m.vertices| :: r.vertices[i].pos == m.vertices[i].pos && r.vertices[i].uv == m.vertices[i].uv)
      && (!(genNormals && NeedsNormals(m.vertices)) ==> r == m)
    ensures genNormals && NeedsNormals(m.vertices) && NeedsNormals(m'.vertices) ==>
      WithGeneratedNormals(m', genNormals, unit) == WithGeneratedNormals(m, genNormals, unit)
  {
    if genNormals && NeedsNormals(m.vertices) && NeedsNormals(m'.vertices) {
      AccumulatedIgnoresNormals(m.vertices, m'.vertices, m.indices, unit, |m.indices| / 3);
      var r := Regenerated(m.vertices, m.indices, unit);
      var r' := Regenerated(m'.vertices, m.indices, unit);
      assert forall i | 0 <= i < |r| :: r'[i] == r[i];
    }
  }

  /** The accumulators read vertex positions only. */
  lemma {:induction false} AccumulatedIgnoresNormals(vs: seq<Vertex>, vs': seq<Vertex>, idx: seq<nat>, unit: Vec3 -> Option<Vec3>, t: nat)
    requires InBounds(vs, idx) && |vs'| == |vs|
    requires forall i | 0 <= i < |vs| :: vs'[i].pos == vs[i].pos
    requires 3 * t <= |idx|
    ensures Accumulated(vs', idx, unit, t) == Accumulated(vs, idx, unit, t)
  {
    if t > 0 {
      AccumulatedIgnoresNormals(vs, vs', idx, unit, t - 1);
    }
  }

  /** Only complete triangles are read: the accumulators after t triangles
      depend on the first 3t indices only, so a trailing incomplete triple is
      never read. */
  lemma {:induction false} AccumulatedReadsPrefix(vs: seq<Vertex>, idx: seq<nat>, idx': seq<nat>, unit: Vec3 -> Option<Vec3>, t: nat)
    requires InBounds(vs, idx) && InBounds(vs, idx')
    requires 3 * t <= |idx| && 3 * t <= |idx'|
    requires idx[..3 * t] == idx'[..3 * t]
    ensures Accumulated(vs, idx, unit, t) == Accumulated(vs, idx', unit, t)
  {
    if t > 0 {
      assert idx[..3 * (t - 1)] == idx[..3 * t][..3 * (t - 1)];
      assert idx'[..3 * (t - 1)] == idx'[..3 * t][..3 * (t - 1)];
      AccumulatedReadsPrefix(vs, idx, idx', unit, t - 1);
      assert idx[3 * t - 3] == idx[..3 * t][3 * t - 3] == idx'[3 * t - 3];
      assert idx[3 * t - 2] == idx[..3 * t][3 * t - 2] == idx'[3 * t - 2];
      assert idx[3 * t - 1] == idx[..3 * t][3 * t - 1] == idx'[3 * t - 1];
    }
  }

  /** The regenerated normals ignore indices past the last complete triple. */
  lemma TrailingIndicesIgnored(vs: seq<Vertex>, idx: seq<nat>, unit: Vec3 -> Option<Vec3>)
    requires InBounds(vs, idx)
    ensures Regenerated(vs, idx, unit) == Regenerated(vs, idx[..3 * (|idx| / 3)], unit)
  {
    var whole := idx[..3 * (|idx| / 3)];
    assert |whole| / 3 == |idx| / 3;
    assert whole[..3 * (|idx| / 3)] == whole;
    AccumulatedReadsPrefix(vs, idx, whole, unit, |idx| / 3);
  }

  /** A vertex that no complete triangle uses keeps a zero accumulator, so its
      regenerated normal is the normalised zero vector or the fallback. */
  lemma {:induction false} UnusedVertexKeepsZero(vs: seq<Vertex>, idx: seq<nat>, unit: Vec3 -> Option<Vec3>, t: nat, j: nat)
    requires InBounds(vs, idx)
    requires 3 * t <= |idx| && j < |vs|
    requires forall k | 0 <= k < 3 * t :: idx[k] != j
    ensures Accumulated(vs, idx, unit, t)[j] == Zero3
  {
    if t > 0 {
      UnusedVertexKeepsZero(vs, idx, unit, t - 1, j);
    }
  }
}
