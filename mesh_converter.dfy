/**
  * Mesh conversion (`aiVertexToExportVertex` and `ConvertMesh` in
  * src/Exporter.cpp): every vertex of an imported mesh is reformatted into an
  * `ExportVertex`, moved by the centring offset and measured from the
  * origin, and the faces' index lists are appended to the index buffer.
  */
module MeshConverter {
  import opened Wrappers
  import opened Geometry
  import opened VertexFormat
  import opened BoundingSphere

  /** An `aiFace`: the vertex indices of one face. */
  datatype Face = Face(indices: seq<IndexType>)

  /**
    * The parts of an `aiMesh` the exporter reads. An optional array is `None`
    * when the importer left that array null; texture channel 0 holds
    * three-component coordinates.
    */
  datatype Mesh = Mesh(
    vertices: seq<Vec3>,
    normals: seq<Vec3>,
    tangents: Option<seq<Vec3>>,
    bitangents: Option<seq<Vec3>>,
    textureCoords0: Option<seq<Vec3>>,
    faces: seq<Face>,
    materialIndex: uint32)

  /** Assimp's `AI_MAX_VERTICES`: the vertex count fits an `int`. */
  const MaxVertices: nat := 0x7fff_ffff

  predicate PerVertex(a: Option<seq<Vec3>>, n: nat) {
    a.Some? ==> |a.value| == n
  }

  /**
    * What the model assumes of a mesh: every per-vertex array present has
    * one entry per vertex, and the normals are present. The exporter reads
    * the normals unconditionally, so a mesh without them (a point or line
    * mesh, say) would make it read through a null pointer.
    */
  predicate WellFormed(m: Mesh) {
    && |m.vertices| <= MaxVertices
    && |m.normals| == |m.vertices|
    && PerVertex(m.tangents, |m.vertices|)
    && PerVertex(m.bitangents, |m.vertices|)
    && PerVertex(m.textureCoords0, |m.vertices|)
  }

  /** `aiMesh::HasTangentsAndBitangents`. */
  predicate HasTangentsAndBitangents(m: Mesh) {
    m.tangents.Some? && m.bitangents.Some? && 0 < |m.vertices|
  }

  /** `aiMesh::HasTextureCoords(0)`. */
  predicate HasTextureCoords0(m: Mesh) {
    m.textureCoords0.Some? && 0 < |m.vertices|
  }

  // ---------------------------------------------------------------------
  // One vertex
  // ---------------------------------------------------------------------

  /**
    * `aiVertexToExportVertex`. The record is a fresh local that is never
    * initialised, so a field the mesh has no data for is left indeterminate;
    * `stale` stands for those indeterminate values. Position and normal are always copied, tangent
    * and bitangent only with tangent data, and the uv only with texture
    * channel 0, from its x and y.
    */
  function ToExportVertex(m: Mesh, i: nat, stale: ExportVertex): (v: ExportVertex)
    requires WellFormed(m) && i < |m.vertices|
    ensures v.position == m.vertices[i] && v.normal == m.normals[i]
    ensures HasTangentsAndBitangents(m) ==>
      v.tangent == m.tangents.value[i] && v.bitangent == m.bitangents.value[i]
    ensures !HasTangentsAndBitangents(m) ==> v.tangent == stale.tangent && v.bitangent == stale.bitangent
    ensures HasTextureCoords0(m) ==>
      v.uv == Vec2(m.textureCoords0.value[i].x, m.textureCoords0.value[i].y)
    ensures !HasTextureCoords0(m) ==> v.uv == stale.uv
  {
    var v := stale.(position := m.vertices[i], normal := m.normals[i]);
    var v := if HasTangentsAndBitangents(m)
      then v.(tangent := m.tangents.value[i], bitangent := m.bitangents.value[i])
      else v;
    if HasTextureCoords0(m) then
      var t := m.textureCoords0.value[i];
      v.(uv := Vec2(t.x, t.y))
    else
      v
  }

  /**
    * A mesh with tangents and texture coordinates writes every field, so the
    * record does not depend on what the storage held before.
    */
  lemma FullMeshWritesEveryField(m: Mesh, i: nat, stale1: ExportVertex, stale2: ExportVertex)
    requires WellFormed(m) && i < |m.vertices|
    requires HasTangentsAndBitangents(m) && HasTextureCoords0(m)
    ensures ToExportVertex(m, i, stale1) == ToExportVertex(m, i, stale2)
  {
  }

  /**
    * Without tangents the tangent and bitangent are not zeroed: two different
    * indeterminate contents give two different records.
    */
  lemma MissingTangentsNotZeroed(m: Mesh, i: nat, stale: ExportVertex)
    requires WellFormed(m) && i < |m.vertices| && !HasTangentsAndBitangents(m)
    requires stale.tangent != Origin
    ensures ToExportVertex(m, i, stale).tangent != ToExportVertex(m, i, ZeroVertex).tangent
  {
  }

  /** Vertex `i` after the centring offset is subtracted from its position. */
  function ConvertedVertex(m: Mesh, i: nat, offset: Vec3, stale: ExportVertex): (v: ExportVertex)
    requires WellFormed(m) && i < |m.vertices|
  {
    var v := ToExportVertex(m, i, stale);
    v.(position := Sub(v.position, offset))
  }

  /** The vertex array `ConvertMesh` leaves behind; `stale(i)` stands for the indeterminate content of vertex `i`'s fresh record. */
  function ConvertedVertices(m: Mesh, offset: Vec3, stale: nat -> ExportVertex): (vs: seq<ExportVertex>)
    requires WellFormed(m)
    ensures |vs| == |m.vertices|
  {
    seq(|m.vertices|, i requires 0 <= i < |m.vertices| => ConvertedVertex(m, i, offset, stale(i)))
  }

  /**
    * Vertex `i` of the output is source vertex `i` reformatted, with the
    * offset subtracted from its position and every other field as
    * `aiVertexToExportVertex` gives it.
    */
  lemma ConvertedVerticesAt(m: Mesh, offset: Vec3, stale: nat -> ExportVertex, i: nat)
    requires WellFormed(m) && i < |m.vertices|
    ensures var v := ConvertedVertices(m, offset, stale)[i];
      var w := ToExportVertex(m, i, stale(i));
      && v.position == Sub(m.vertices[i], offset)
      && v.uv == w.uv && v.normal == m.normals[i] && v.tangent == w.tangent && v.bitangent == w.bitangent
  {
  }

  /** Without centring the offset is the origin and positions are unchanged. */
  lemma NoOffsetKeepsPositions(m: Mesh, stale: nat -> ExportVertex)
    requires WellFormed(m)
    ensures forall i :: 0 <= i < |m.vertices| ==>
      ConvertedVertices(m, Origin, stale)[i].position == m.vertices[i]
  {
    forall i | 0 <= i < |m.vertices|
      ensures ConvertedVertices(m, Origin, stale)[i].position == m.vertices[i]
    {
      assert ConvertedVertices(m, Origin, stale)[i] == ConvertedVertex(m, i, Origin, stale(i));
      SubOrigin(m.vertices[i]);
    }
  }

  lemma SubOrigin(p: Vec3)
    ensures Sub(p, Origin) == p
  {
  }

  // ---------------------------------------------------------------------
  // Distance from the origin
  // ---------------------------------------------------------------------

  function Positions(vs: seq<ExportVertex>): (ps: seq<Vec3>)
    ensures |ps| == |vs| && forall i :: 0 <= i < |vs| ==> ps[i] == vs[i].position
  {
    seq(|vs|, i requires 0 <= i < |vs| => vs[i].position)
  }

  /** `std::max(a, b)`: `b` only when `a < b`. */
  function StdMax(a: real, b: real): (r: real)
    ensures a <= r && b <= r && (r == a || r == b)
  {
    if a < b then b else a
  }

  /** `sqrt(x*x + y*y + z*z)`: the distance of `p` from the origin. */
  function Norm(p: Vec3, sqrt: real -> real): real {
    sqrt(Dot(p, p))
  }

  /**
    * The running maximum of `ConvertMesh`: starting from 0, each position's
    * distance from the origin is folded in with `std::max`, in vertex order.
    */
  function MaxDistance(ps: seq<Vec3>, sqrt: real -> real): real
    decreases |ps|
  {
    if ps == [] then 0.0 else StdMax(MaxDistance(ps[..|ps| - 1], sqrt), Norm(ps[|ps| - 1], sqrt))
  }

  /**
    * The running maximum is the largest distance from the origin: at least
    * every position's distance, and, for a non-empty mesh, equal to one of
    * them.
    */
  lemma {:induction false} MaxDistanceIsMaximum(ps: seq<Vec3>, sqrt: real -> real)
    requires forall x :: SqrtAt(sqrt, x)
    ensures 0.0 <= MaxDistance(ps, sqrt)
    ensures forall i :: 0 <= i < |ps| ==> Norm(ps[i], sqrt) <= MaxDistance(ps, sqrt)
    ensures ps != [] ==> exists i :: 0 <= i < |ps| && MaxDistance(ps, sqrt) == Norm(ps[i], sqrt)
    decreases |ps|
  {
    if ps != [] {
      var init := ps[..|ps| - 1];
      MaxDistanceIsMaximum(init, sqrt);
      var last := |ps| - 1;
      DotSelfNonNegative(ps[last]);
      assert SqrtAt(sqrt, Dot(ps[last], ps[last]));
      forall i | 0 <= i < |ps|
        ensures Norm(ps[i], sqrt) <= MaxDistance(ps, sqrt)
      {
        if i < last {
          assert ps[i] == init[i];
        }
      }
      if MaxDistance(ps, sqrt) != Norm(ps[last], sqrt) {
        assert init != [];
        var j :| 0 <= j < |init| && MaxDistance(init, sqrt) == Norm(init[j], sqrt);
        assert ps[j] == init[j];
      }
    }
  }

  /** A point no further than `r` from the origin lies in the sphere of radius `r` there. */
  lemma NormWithin(p: Vec3, r: real, sqrt: real -> real)
    requires (forall x :: SqrtAt(sqrt, x)) && Norm(p, sqrt) <= r
    ensures Contains(Sphere(Origin, r), p)
  {
    DotSelfNonNegative(p);
    assert SqrtAt(sqrt, Dot(p, p));
    var n := Norm(p, sqrt);
    MulLeft(n, n, r);
    MulLeft(r, n, r);
    SubOrigin(p);
  }

  /** The sphere of radius `MaxDistance` about the origin contains every position. */
  lemma OriginSphereContainsAll(ps: seq<Vec3>, sqrt: real -> real)
    requires forall x :: SqrtAt(sqrt, x)
    ensures forall i :: 0 <= i < |ps| ==> Contains(Sphere(Origin, MaxDistance(ps, sqrt)), ps[i])
  {
    MaxDistanceIsMaximum(ps, sqrt);
    forall i | 0 <= i < |ps|
      ensures Contains(Sphere(Origin, MaxDistance(ps, sqrt)), ps[i])
    {
      NormWithin(ps[i], MaxDistance(ps, sqrt), sqrt);
    }
  }

  // ---------------------------------------------------------------------
  // Face indices
  // ---------------------------------------------------------------------

  /** The faces' index lists concatenated in face order. */
  function FlattenFaces(fs: seq<Face>): seq<IndexType>
    decreases |fs|
  {
    if fs == [] then [] else FlattenFaces(fs[..|fs| - 1]) + fs[|fs| - 1].indices
  }

  /** The sum of the faces' `mNumIndices`. */
  function IndexCount(fs: seq<Face>): nat
    decreases |fs|
  {
    if fs == [] then 0 else IndexCount(fs[..|fs| - 1]) + |fs[|fs| - 1].indices|
  }

  lemma {:induction false} FlattenFacesLength(fs: seq<Face>)
    ensures |FlattenFaces(fs)| == IndexCount(fs)
    decreases |fs|
  {
    if fs != [] {
      FlattenFacesLength(fs[..|fs| - 1]);
    }
  }

  /** Flattening distributes over splitting the face list. */
  lemma {:induction false} FlattenFacesAppend(a: seq<Face>, b: seq<Face>)
    ensures FlattenFaces(a + b) == FlattenFaces(a) + FlattenFaces(b)
    decreases |b|
  {
    if b != [] {
      var b' := b[..|b| - 1];
      assert (a + b)[..|a + b| - 1] == a + b';
      FlattenFacesAppend(a, b');
    } else {
      assert a + b == a;
    }
  }

  /**
    * Index `j` of face `f` lands at position `IndexCount(fs[..f]) + j` of the
    * flattened buffer.
    */
  lemma FlattenFacesAt(fs: seq<Face>, f: nat, j: nat)
    requires f < |fs| && j < |fs[f].indices|
    ensures IndexCount(fs[..f]) + j < |FlattenFaces(fs)|
    ensures FlattenFaces(fs)[IndexCount(fs[..f]) + j] == fs[f].indices[j]
  {
    assert fs == fs[..f] + [fs[f]] + fs[f + 1..];
    FlattenFacesAppend(fs[..f] + [fs[f]], fs[f + 1..]);
    FlattenFacesAppend(fs[..f], [fs[f]]);
    assert FlattenFaces([fs[f]]) == fs[f].indices by {
      assert [fs[f]][..0] == [];
    }
    FlattenFacesLength(fs[..f]);
  }

  // ---------------------------------------------------------------------
  // A whole mesh
  // ---------------------------------------------------------------------

  /** What `ConvertMesh` produces for a mesh, once the caller has cleared the buffers. */
  datatype Converted = Converted(vertices: seq<ExportVertex>, indices: seq<IndexType>, position: Vec3, radius: real)

  /** The centring offset: the bounding sphere's centre when centring, else the origin. */
  function CentringOffset(m: Mesh, centre: bool, raw: nat -> nat, drawn: nat, sqrt: real -> real): Vec3
    requires centre ==> 1 <= |m.vertices|
    requires forall x :: SqrtAt(sqrt, x)
  {
    if centre then BoundingSphereOf(m.vertices, raw, drawn, sqrt).center else Origin
  }

  /** How many numbers the conversion draws from the generator. */
  function Draws(m: Mesh, centre: bool): nat
    requires centre ==> 1 <= |m.vertices|
  {
    if centre then NumIter * (|m.vertices| - 1) else 0
  }

  /**
    * The result of converting `m` with the generator at draw `drawn`; `stale`
    * stands for the indeterminate content of each vertex's fresh record.
    */
  function Convert(m: Mesh, centre: bool, raw: nat -> nat, drawn: nat, sqrt: real -> real,
                   stale: nat -> ExportVertex): Converted
    requires WellFormed(m) && (centre ==> 1 <= |m.vertices|) && (forall x :: SqrtAt(sqrt, x))
  {
    var offset := CentringOffset(m, centre, raw, drawn, sqrt);
    var vs := ConvertedVertices(m, offset, stale);
    Converted(vs, FlattenFaces(m.faces), offset, MaxDistance(Positions(vs), sqrt))
  }

  /**
    * The shape of a converted mesh: one vertex per source vertex, the index
    * count is the sum of the faces' index counts, the recorded position is
    * the offset, and the radius is non-negative and reaches every output
    * position.
    */
  lemma ConvertShape(m: Mesh, centre: bool, raw: nat -> nat, drawn: nat, sqrt: real -> real,
                     stale: nat -> ExportVertex)
    requires WellFormed(m) && (centre ==> 1 <= |m.vertices|) && (forall x :: SqrtAt(sqrt, x))
    ensures var c := Convert(m, centre, raw, drawn, sqrt, stale);
      && |c.vertices| == |m.vertices|
      && |c.indices| == IndexCount(m.faces)
      && c.position == CentringOffset(m, centre, raw, drawn, sqrt)
      && (!centre ==> c.position == Origin)
      && 0.0 <= c.radius
      && forall i :: 0 <= i < |c.vertices| ==> Contains(Sphere(Origin, c.radius), c.vertices[i].position)
  {
    var c := Convert(m, centre, raw, drawn, sqrt, stale);
    FlattenFacesLength(m.faces);
    MaxDistanceIsMaximum(Positions(c.vertices), sqrt);
    OriginSphereContainsAll(Positions(c.vertices), sqrt);
  }

  /**
    * Moving the mesh by the centre of a sphere of non-negative radius that
    * contains all its vertices leaves every position within that radius of
    * the origin.
    */
  lemma OffsetRadiusWithin(m: Mesh, s: Sphere, sqrt: real -> real, stale: nat -> ExportVertex)
    requires WellFormed(m) && (forall x :: SqrtAt(sqrt, x)) && 0.0 <= s.radius
    requires forall i :: 0 <= i < |m.vertices| ==> Contains(s, m.vertices[i])
    ensures MaxDistance(Positions(ConvertedVertices(m, s.center, stale)), sqrt) <= s.radius
  {
    var ps := Positions(ConvertedVertices(m, s.center, stale));
    MaxDistanceIsMaximum(ps, sqrt);
    if ps != [] {
      var i :| 0 <= i < |ps| && MaxDistance(ps, sqrt) == Norm(ps[i], sqrt);
      assert ConvertedVertices(m, s.center, stale)[i] == ConvertedVertex(m, i, s.center, stale(i));
      assert ps[i] == Sub(m.vertices[i], s.center);
      assert Contains(s, m.vertices[i]);
      DotSelfNonNegative(ps[i]);
      assert SqrtAt(sqrt, Dot(ps[i], ps[i]));
      SquareLe(Norm(ps[i], sqrt), s.radius);
    }
  }

  /**
    * A centred mesh fits in the bounding sphere moved to the origin: its
    * radius from the origin is at most the solver's radius.
    */
  lemma CentredRadiusWithinSphere(m: Mesh, raw: nat -> nat, drawn: nat, sqrt: real -> real,
                                  stale: nat -> ExportVertex)
    requires WellFormed(m) && 1 <= |m.vertices| && (forall x :: SqrtAt(sqrt, x))
    ensures Convert(m, true, raw, drawn, sqrt, stale).radius
         <= BoundingSphereOf(m.vertices, raw, drawn, sqrt).radius
  {
    BoundingSphereContainsAll(m.vertices, raw, drawn, sqrt);
    OffsetRadiusWithin(m, BoundingSphereOf(m.vertices, raw, drawn, sqrt), sqrt, stale);
  }

  /** The running maximum over three positions, given their distances `a`, `b`, `c` from the origin. */
  lemma MaxDistanceOfThree(ps: seq<Vec3>, sqrt: real -> real, a: real, b: real, c: real)
    requires |ps| == 3 && Norm(ps[0], sqrt) == a && Norm(ps[1], sqrt) == b && Norm(ps[2], sqrt) == c
    ensures MaxDistance(ps, sqrt) == StdMax(StdMax(StdMax(0.0, a), b), c)
  {
    assert MaxDistance(ps[..1], sqrt) == StdMax(0.0, a) by {
      assert ps[..1][..0] == [] && ps[..1][0] == ps[0];
    }
    assert MaxDistance(ps[..2], sqrt) == StdMax(MaxDistance(ps[..1], sqrt), b) by {
      assert ps[..2][..1] == ps[..1] && ps[..2][1] == ps[1];
    }
    assert ps[..|ps| - 1] == ps[..2];
  }

  /** A position whose squared length is `a * a`, for a non-negative `a`, is at distance `a` from the origin. */
  lemma NormOfSquare(p: Vec3, sqrt: real -> real, a: real)
    requires forall x :: SqrtAt(sqrt, x)
    requires 0.0 <= a && Dot(p, p) == a * a
    ensures Norm(p, sqrt) == a
  {
    assert SqrtAt(sqrt, a * a);
    SqrtOfSquare(sqrt, a);
  }

  /** The unit right triangle's corners lie at distances 0, 1 and 1 from the origin. */
  lemma TriangleNorms(sqrt: real -> real)
    requires forall x :: SqrtAt(sqrt, x)
    ensures Norm(Vec3(0.0, 0.0, 0.0), sqrt) == 0.0
    ensures Norm(Vec3(1.0, 0.0, 0.0), sqrt) == 1.0
    ensures Norm(Vec3(0.0, 1.0, 0.0), sqrt) == 1.0
  {
    NormOfSquare(Vec3(0.0, 0.0, 0.0), sqrt, 0.0);
    NormOfSquare(Vec3(1.0, 0.0, 0.0), sqrt, 1.0);
    NormOfSquare(Vec3(0.0, 1.0, 0.0), sqrt, 1.0);
  }

  /** The largest distance from the origin among the unit right triangle's corners is 1. */
  lemma TriangleMaxDistance(ps: seq<Vec3>, sqrt: real -> real)
    requires forall x :: SqrtAt(sqrt, x)
    requires |ps| == 3 && ps[0] == Vec3(0.0, 0.0, 0.0) && ps[1] == Vec3(1.0, 0.0, 0.0) && ps[2] == Vec3(0.0, 1.0, 0.0)
    ensures MaxDistance(ps, sqrt) == 1.0
  {
    TriangleNorms(sqrt);
    MaxDistanceOfThree(ps, sqrt, 0.0, 1.0, 1.0);
  }

  /**
    * The right triangle at the origin with unit legs, exported without
    * centring: its position is the origin and its radius is exactly 1.
    */
  lemma TriangleRadius(m: Mesh, raw: nat -> nat, drawn: nat, sqrt: real -> real, stale: nat -> ExportVertex)
    requires WellFormed(m) && (forall x :: SqrtAt(sqrt, x))
    requires |m.vertices| == 3 && m.vertices[0] == Vec3(0.0, 0.0, 0.0)
    requires m.vertices[1] == Vec3(1.0, 0.0, 0.0) && m.vertices[2] == Vec3(0.0, 1.0, 0.0)
    ensures Convert(m, false, raw, drawn, sqrt, stale).position == Origin
    ensures Convert(m, false, raw, drawn, sqrt, stale).radius == 1.0
  {
    var ps := Positions(ConvertedVertices(m, Origin, stale));
    NoOffsetKeepsPositions(m, stale);
    TriangleMaxDistance(ps, sqrt);
  }

  // ---------------------------------------------------------------------
  // The imperative conversion
  // ---------------------------------------------------------------------

  /** `std::vector::resize`: keeps a prefix, or pads with value-initialised records. */
  function Resize(vs: seq<ExportVertex>, n: nat): (r: seq<ExportVertex>)
    ensures |r| == n
    ensures forall i :: 0 <= i < n ==> r[i] == if i < |vs| then vs[i] else ZeroVertex
  {
    if n <= |vs| then vs[..n] else vs + seq(n - |vs|, _ => ZeroVertex)
  }

  /** The `ConvertedMesh` record the caller reuses from mesh to mesh. */
  class ConvertedMesh {
    var vertices: seq<ExportVertex>
    var indices: seq<IndexType>
    var position: Vec3
    var radiusFromOrigo: real

    constructor ()
      ensures vertices == [] && indices == []
    {
      vertices := [];
      indices := [];
      position := Origin;
      radiusFromOrigo := 0.0;
    }

    /** `vertices.clear()` and `indices.clear()`. */
    method Clear()
      modifies this
      ensures vertices == [] && indices == []
      ensures position == old(position) && radiusFromOrigo == old(radiusFromOrigo)
    {
      vertices := [];
      indices := [];
    }
  }

  /**
    * The vertex loop of `ConvertMesh`: resizes `out.vertices` to the vertex
    * count, overwrites every record with the converted vertex, and returns
    * the running maximum distance from the origin.
    */
  method ConvertVertices(m: Mesh, offset: Vec3, out: ConvertedMesh, sqrt: real -> real,
                         stale: nat -> ExportVertex)
    returns (maxDistance: real)
    requires WellFormed(m)
    modifies out
    ensures out.vertices == ConvertedVertices(m, offset, stale)
    ensures maxDistance == MaxDistance(Positions(out.vertices), sqrt)
    ensures out.indices == old(out.indices) && out.position == old(out.position)
    ensures out.radiusFromOrigo == old(out.radiusFromOrigo)
  {
    maxDistance := 0.0;
    ghost var spec := ConvertedVertices(m, offset, stale);
    ghost var ps := Positions(spec);

    var n := |m.vertices|;
    out.vertices := Resize(out.vertices, n);
    for i := 0 to n
      invariant |out.vertices| == n && out.indices == old(out.indices) && out.position == old(out.position)
      invariant out.radiusFromOrigo == old(out.radiusFromOrigo)
      invariant forall k :: 0 <= k < i ==> out.vertices[k] == spec[k]
      invariant maxDistance == MaxDistance(ps[..i], sqrt)
    {
      var v := ToExportVertex(m, i, stale(i));
      v := v.(position := Sub(v.position, offset));
      out.vertices := out.vertices[i := v];
      var distance := sqrt(Dot(v.position, v.position));
      assert ps[..i + 1][..i] == ps[..i];
      maxDistance := StdMax(maxDistance, distance);
    }
    assert out.vertices == spec;
    assert ps[..n] == ps;
  }

  /** The face loop of `ConvertMesh`: pushes every face's indices, in face order. */
  method AppendFaceIndices(faces: seq<Face>, out: ConvertedMesh)
    modifies out
    ensures out.indices == old(out.indices) + FlattenFaces(faces)
    ensures out.vertices == old(out.vertices) && out.position == old(out.position)
    ensures out.radiusFromOrigo == old(out.radiusFromOrigo)
  {
    for f := 0 to |faces|
      invariant out.indices == old(out.indices) + FlattenFaces(faces[..f])
      invariant out.vertices == old(out.vertices) && out.position == old(out.position)
      invariant out.radiusFromOrigo == old(out.radiusFromOrigo)
    {
      var face := faces[f];
      for j := 0 to |face.indices|
        invariant out.indices == old(out.indices) + FlattenFaces(faces[..f]) + face.indices[..j]
        invariant out.vertices == old(out.vertices) && out.position == old(out.position)
        invariant out.radiusFromOrigo == old(out.radiusFromOrigo)
      {
        out.indices := out.indices + [face.indices[j]];
        assert face.indices[..j + 1] == face.indices[..j] + [face.indices[j]];
      }
      assert faces[..f + 1][..f] == faces[..f];
      assert face.indices[..|face.indices|] == face.indices;
    }
    assert faces[..|faces|] == faces;
  }

  /**
    * `ConvertMesh`: fills `out` from `m`, centring it on the bounding sphere
    * when `centre` is set. The vertex array is resized and overwritten; the
    * face indices are appended after whatever `out.indices` already held.
    */
  method ConvertMesh(m: Mesh, centre: bool, out: ConvertedMesh, gen: Generator, sqrt: real -> real,
                     stale: nat -> ExportVertex)
    requires WellFormed(m) && (centre ==> 1 <= |m.vertices|) && (forall x :: SqrtAt(sqrt, x))
    modifies out, gen
    ensures gen.drawn == old(gen.drawn) + Draws(m, centre)
    ensures var c := Convert(m, centre, gen.raw, old(gen.drawn), sqrt, stale);
      && out.vertices == c.vertices
      && out.indices == old(out.indices) + c.indices
      && out.position == c.position
      && out.radiusFromOrigo == c.radius
  {
    var offset := Origin;
    if centre {
      offset := FindCenterOfBoundingSphere(m.vertices, gen, sqrt);
    }
    var maxDistance := ConvertVertices(m, offset, out, sqrt, stale);
    AppendFaceIndices(m.faces, out);
    out.position := offset;
    out.radiusFromOrigo := maxDistance;
  }
}
