/**
  * The exported vertex format (src/ExportedVertexFormat.h) and the way a
  * vertex array and an index array are laid out as raw bytes in the blob.
  *
  * A float and an index both take four bytes, so the blob is modelled as a
  * sequence of four-byte cells; byte offset `b` is cell `b / 4`.
  */
module VertexFormat {
  import opened Geometry

  newtype uint32 = x: int | 0 <= x < 0x1_0000_0000

  const Two32: int := 0x1_0000_0000

  /** The type of one entry of the index buffer (`using IndexType = uint32_t`). */
  type IndexType = uint32

  /**
    * Storing into a `uint32_t` (from a `size_t`, or as the result of an
    * unsigned addition): the value is kept modulo 2^32.
    */
  function Wrap32(x: int): (r: uint32)
    ensures r as int == x % Two32
    ensures 0 <= x < Two32 ==> r as int == x
    ensures 0 <= x ==> r as int <= x
  {
    (x % Two32) as uint32
  }

  /** `std::array<float, 2>`, used for the texture coordinate. */
  datatype Vec2 = Vec2(x: real, y: real)

  /**
    * One exported vertex, fields in declaration order. Positions, normals,
    * tangents and bitangents are `std::array<float, 3>`, written here as
    * `Vec3`.
    */
  datatype ExportVertex = ExportVertex(
    position: Vec3,
    uv: Vec2,
    normal: Vec3,
    tangent: Vec3,
    bitangent: Vec3)

  /** The value-initialised record, as `std::vector::resize` creates it. */
  const ZeroVertex: ExportVertex :=
    ExportVertex(Origin, Vec2(0.0, 0.0), Origin, Origin, Origin)

  const FloatSize: nat := 4
  const IndexSize: nat := 4

  /** Floats per field: 3 + 2 + 3 + 3 + 3. */
  const FloatsPerVertex: nat := 14

  /** `sizeof(ExportVertex)`: fourteen floats, no padding. */
  const VertexSize: nat := FloatsPerVertex * FloatSize

  /** Byte offsets of the fields inside one record. */
  const PositionOffset: nat := 0
  const UvOffset: nat := 12
  const NormalOffset: nat := 20
  const TangentOffset: nat := 32
  const BitangentOffset: nat := 44

  /** One four-byte slot of the blob: a float or an index. */
  datatype Cell = FloatCell(f: real) | IndexCell(i: IndexType)

  function Vec3Cells(v: Vec3): seq<Cell> {
    [FloatCell(v.x), FloatCell(v.y), FloatCell(v.z)]
  }

  /** Float `j` of a record, fields in declaration order. */
  function Component(v: ExportVertex, j: nat): real
    requires j < FloatsPerVertex
  {
    if j == 0 then v.position.x else if j == 1 then v.position.y else if j == 2 then v.position.z
    else if j == 3 then v.uv.x else if j == 4 then v.uv.y
    else if j == 5 then v.normal.x else if j == 6 then v.normal.y else if j == 7 then v.normal.z
    else if j == 8 then v.tangent.x else if j == 9 then v.tangent.y else if j == 10 then v.tangent.z
    else if j == 11 then v.bitangent.x else if j == 12 then v.bitangent.y else v.bitangent.z
  }

  /** The raw contents of one `ExportVertex`: its 14 floats in field order. */
  function VertexCells(v: ExportVertex): (cs: seq<Cell>)
    ensures |cs| == FloatsPerVertex
  {
    seq(FloatsPerVertex, j requires 0 <= j < FloatsPerVertex => FloatCell(Component(v, j)))
  }

  /**
    * The record is 56 bytes of floats, and each field starts at its byte
    * offset: position at 0, uv at 12, normal at 20, tangent at 32 and
    * bitangent at 44.
    */
  lemma VertexCellsLayout(v: ExportVertex)
    ensures |VertexCells(v)| * FloatSize == VertexSize == 56
    ensures AllFloats(VertexCells(v))
    ensures VertexCells(v)[PositionOffset / 4 .. PositionOffset / 4 + 3] == Vec3Cells(v.position)
    ensures VertexCells(v)[UvOffset / 4 .. UvOffset / 4 + 2] == [FloatCell(v.uv.x), FloatCell(v.uv.y)]
    ensures VertexCells(v)[NormalOffset / 4 .. NormalOffset / 4 + 3] == Vec3Cells(v.normal)
    ensures VertexCells(v)[TangentOffset / 4 .. TangentOffset / 4 + 3] == Vec3Cells(v.tangent)
    ensures VertexCells(v)[BitangentOffset / 4 .. BitangentOffset / 4 + 3] == Vec3Cells(v.bitangent)
  {
  }

  ghost predicate AllFloats(cs: seq<Cell>) {
    forall k :: 0 <= k < |cs| ==> cs[k].FloatCell?
  }

  /** How a reader of the blob recovers one vertex from its 14 cells. */
  function DecodeVertex(cs: seq<Cell>): ExportVertex
    requires |cs| == FloatsPerVertex && AllFloats(cs)
  {
    ExportVertex(
      Vec3(cs[0].f, cs[1].f, cs[2].f),
      Vec2(cs[3].f, cs[4].f),
      Vec3(cs[5].f, cs[6].f, cs[7].f),
      Vec3(cs[8].f, cs[9].f, cs[10].f),
      Vec3(cs[11].f, cs[12].f, cs[13].f))
  }

  /** The raw contents of `vertices.data()`: the records back to back. */
  function VerticesCells(vs: seq<ExportVertex>): (cs: seq<Cell>)
    ensures |cs| == |vs| * FloatsPerVertex
  {
    if vs == [] then [] else VertexCells(vs[0]) + VerticesCells(vs[1..])
  }

  /** A vertex region holds floats only. */
  lemma {:induction false} VerticesCellsFloats(vs: seq<ExportVertex>)
    ensures AllFloats(VerticesCells(vs))
  {
    if vs != [] {
      VertexCellsLayout(vs[0]);
      VerticesCellsFloats(vs[1..]);
      var cs := VerticesCells(vs);
      var head, rest := VertexCells(vs[0]), VerticesCells(vs[1..]);
      assert cs == head + rest;
      forall k | 0 <= k < |cs|
        ensures cs[k].FloatCell?
      {
        if k < |head| {
          assert cs[k] == head[k];
        } else {
          assert cs[k] == rest[k - |head|];
        }
      }
    }
  }

  function DecodeVertices(cs: seq<Cell>): seq<ExportVertex>
    requires |cs| % FloatsPerVertex == 0 && AllFloats(cs)
    decreases |cs|
  {
    if |cs| == 0 then []
    else [DecodeVertex(cs[..FloatsPerVertex])] + DecodeVertices(cs[FloatsPerVertex..])
  }

  /** The raw contents of `indices.data()`: one four-byte cell per index. */
  function IndicesCells(ix: seq<IndexType>): (cs: seq<Cell>)
    ensures |cs| == |ix|
  {
    seq(|ix|, k requires 0 <= k < |ix| => IndexCell(ix[k]))
  }

  ghost predicate AllIndices(cs: seq<Cell>) {
    forall k :: 0 <= k < |cs| ==> cs[k].IndexCell?
  }

  function DecodeIndices(cs: seq<Cell>): seq<IndexType>
    requires AllIndices(cs)
  {
    seq(|cs|, k requires 0 <= k < |cs| => cs[k].i)
  }

  /** A record's 14 floats read back give the same record. */
  lemma DecodeVertexCells(v: ExportVertex)
    ensures AllFloats(VertexCells(v)) && DecodeVertex(VertexCells(v)) == v
  {
    VertexCellsLayout(v);
  }

  /** Record `i` of a vertex array sits at cells `14 * i .. 14 * i + 14`. */
  lemma {:induction false} VerticesCellsAt(vs: seq<ExportVertex>, i: nat)
    requires i < |vs|
    ensures 14 * i + 14 <= |VerticesCells(vs)|
    ensures VerticesCells(vs)[14 * i .. 14 * i + 14] == VertexCells(vs[i])
  {
    var rest := VerticesCells(vs[1..]);
    assert VerticesCells(vs) == VertexCells(vs[0]) + rest;
    if i > 0 {
      VerticesCellsAt(vs[1..], i - 1);
      assert VerticesCells(vs)[14 * i .. 14 * i + 14] == rest[14 * (i - 1) .. 14 * (i - 1) + 14];
    }
  }

  /** Reading a vertex region back gives the vertex array that was written. */
  lemma {:induction false} DecodeVerticesCells(vs: seq<ExportVertex>)
    ensures AllFloats(VerticesCells(vs)) && DecodeVertices(VerticesCells(vs)) == vs
  {
    VerticesCellsFloats(vs);
    if vs != [] {
      var cs := VerticesCells(vs);
      assert cs == VertexCells(vs[0]) + VerticesCells(vs[1..]);
      assert cs[..FloatsPerVertex] == VertexCells(vs[0]);
      assert cs[FloatsPerVertex..] == VerticesCells(vs[1..]);
      DecodeVertexCells(vs[0]);
      DecodeVerticesCells(vs[1..]);
      assert vs == [vs[0]] + vs[1..];
    }
  }

  /** Reading an index region back gives the index array that was written. */
  lemma DecodeIndicesCells(ix: seq<IndexType>)
    ensures AllIndices(IndicesCells(ix))
    ensures DecodeIndices(IndicesCells(ix)) == ix
  {
  }
}
