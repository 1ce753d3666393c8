/**
  * The mesh export loop (`ConvertAndExportMeshes` in src/Exporter.cpp): every
  * mesh of the scene is converted, its vertex array and then its index array
  * are appended to the mesh-data stream, and an `ExportMesh` record notes
  * where they went. The running file offset is a `uint32_t` and wraps.
  */
module MeshExport {
  import opened Geometry
  import opened VertexFormat
  import opened BoundingSphere
  import opened MeshConverter

  /** The per-mesh record handed on to the scene description. */
  datatype ExportMesh = ExportMesh(
    position: Vec3,
    radius: real,
    materialIndex: uint32,
    numVertices: uint32,
    verticesOffset: uint32,
    verticesSize: uint32,
    numIndices: uint32,
    indicesOffset: uint32,
    indicesSize: uint32)

  /** The open `meshdata.bin` stream: the cells written to it so far. */
  class MeshDataStream {
    var written: seq<Cell>

    constructor ()
      ensures written == []
    {
      written := [];
    }

    /** `ofstream::write` of `bytes` bytes of `data`, a multiple of four. */
    method Write(data: seq<Cell>, bytes: nat)
      requires bytes % 4 == 0 && bytes / 4 <= |data|
      modifies this
      ensures written == old(written) + data[..bytes / 4]
    {
      written := written + data[..bytes / 4];
    }
  }

  // ---------------------------------------------------------------------
  // The layout of the stream, given the converted meshes
  // ---------------------------------------------------------------------

  /**
    * The record made for mesh `m`, converted to `c`, at file offset `offset`.
    * Counts and sizes are `size_t` values stored into `uint32_t` fields.
    */
  function RecordOf(offset: uint32, m: Mesh, c: Converted): ExportMesh
  {
    var verticesSize := Wrap32(|c.vertices| * VertexSize);
    ExportMesh(c.position, c.radius, m.materialIndex,
      Wrap32(|c.vertices|), offset, verticesSize,
      Wrap32(|c.indices|), Wrap32(offset as int + verticesSize as int), Wrap32(|c.indices| * IndexSize))
  }

  /** Where the file offset stands after a record's two regions. */
  function OffsetAfter(r: ExportMesh): uint32 {
    Wrap32(r.indicesOffset as int + r.indicesSize as int)
  }

  /** The records made for the first `n` meshes of `scene`, converted to `cs`, and the file offset after them. */
  datatype Records = Records(meshes: seq<ExportMesh>, offset: uint32)

  function RecordsPrefix(scene: seq<Mesh>, cs: seq<Converted>, n: nat): (rs: Records)
    requires n <= |scene| == |cs|
    ensures |rs.meshes| == n
  {
    if n == 0 then Records([], 0)
    else
      var prev := RecordsPrefix(scene, cs, n - 1);
      var r := RecordOf(prev.offset, scene[n - 1], cs[n - 1]);
      Records(prev.meshes + [r], OffsetAfter(r))
  }

  /**
    * The vertex cells the export writes for `c`: as many bytes as the
    * stored `uint32_t` vertex size says.
    */
  function VertexRegion(c: Converted): (cs: seq<Cell>)
    ensures |cs| * 4 == Wrap32(|c.vertices| * VertexSize) as int
  {
    WrapFourMultiple(|c.vertices| * FloatsPerVertex);
    VerticesCells(c.vertices)[..Wrap32(|c.vertices| * VertexSize) as int / 4]
  }

  /** The cells written for the first `n` converted meshes: vertex region, then index region, mesh by mesh. */
  function BlobPrefix(cs: seq<Converted>, n: nat): seq<Cell>
    requires n <= |cs|
  {
    if n == 0 then []
    else BlobPrefix(cs, n - 1) + VertexRegion(cs[n - 1]) + IndicesCells(cs[n - 1].indices)
  }

  /** The bytes the first `n` converted meshes take: 56 per vertex and 4 per index. */
  function Bytes(cs: seq<Converted>, n: nat): nat
    requires n <= |cs|
  {
    if n == 0 then 0
    else Bytes(cs, n - 1) + |cs[n - 1].vertices| * VertexSize + |cs[n - 1].indices| * IndexSize
  }

  /**
    * The records describe back-to-back regions: the first starts at 0, each
    * mesh's index region starts where its vertex region ends, and the next
    * mesh starts where the index region ends; the last ends at `end`.
    */
  ghost predicate Contiguous(ms: seq<ExportMesh>, end: int) {
    && (|ms| == 0 ==> end == 0)
    && (|ms| > 0 ==> ms[0].verticesOffset == 0)
    && (forall k :: 0 <= k < |ms| ==>
          ms[k].verticesOffset as int + ms[k].verticesSize as int == ms[k].indicesOffset as int)
    && (forall k :: 0 <= k < |ms| - 1 ==>
          ms[k].indicesOffset as int + ms[k].indicesSize as int == ms[k + 1].verticesOffset as int)
    && (|ms| > 0 ==> ms[|ms| - 1].indicesOffset as int + ms[|ms| - 1].indicesSize as int == end)
  }

  /**
    * One record per mesh, in mesh order: record `k` is the one made for mesh
    * `k` at the offset the previous meshes left, and later meshes leave it
    * alone.
    */
  lemma {:induction false} RecordAt(scene: seq<Mesh>, cs: seq<Converted>, n: nat, k: nat)
    requires k < n <= |scene| == |cs|
    ensures RecordsPrefix(scene, cs, n).meshes[k] == RecordOf(RecordsPrefix(scene, cs, k).offset, scene[k], cs[k])
    ensures var r := RecordsPrefix(scene, cs, n).meshes[k];
      && r.verticesOffset == RecordsPrefix(scene, cs, k).offset
      && r.materialIndex == scene[k].materialIndex
      && r.position == cs[k].position && r.radius == cs[k].radius
      && r.numVertices as int == |cs[k].vertices| % Two32 && r.numIndices as int == |cs[k].indices| % Two32
  {
    if k < n - 1 {
      RecordAt(scene, cs, n - 1, k);
    }
  }

  /** One mesh moves the counter by the cells it writes, modulo 2^32. */
  lemma CounterStep(offset: uint32, cells: nat, m: Mesh, c: Converted)
    requires offset as int == (cells * 4) % Two32
    ensures OffsetAfter(RecordOf(offset, m, c)) as int
         == ((cells + |VertexRegion(c)| + |IndicesCells(c.indices)|) * 4) % Two32
  {
    var r := RecordOf(offset, m, c);
    WrapAddBytes(offset, cells, r.verticesSize as int, |VertexRegion(c)|);
    WrapAddBytes(r.indicesOffset, cells + |VertexRegion(c)|, |c.indices| * IndexSize, |IndicesCells(c.indices)|);
  }

  /** The file offset always equals the bytes written, modulo 2^32. */
  lemma {:induction false} CounterMatchesBlob(scene: seq<Mesh>, cs: seq<Converted>, n: nat, rs: Records, blob: seq<Cell>)
    requires n <= |scene| == |cs| && rs == RecordsPrefix(scene, cs, n) && blob == BlobPrefix(cs, n)
    ensures rs.offset as int == (|blob| * 4) % Two32
  {
    if n > 0 {
      var prev := RecordsPrefix(scene, cs, n - 1);
      CounterMatchesBlob(scene, cs, n - 1, prev, BlobPrefix(cs, n - 1));
      CounterStep(prev.offset, |BlobPrefix(cs, n - 1)|, scene[n - 1], cs[n - 1]);
    }
  }

  /**
    * A record whose regions end below 2^32 stores exact sizes: 56 bytes per
    * vertex, 4 per index, the index region right after the vertex region,
    * and the whole vertex array written.
    */
  lemma NoWrapRecord(offset: uint32, m: Mesh, c: Converted)
    requires offset as int + |c.vertices| * VertexSize + |c.indices| * IndexSize < Two32
    ensures var r := RecordOf(offset, m, c);
      && r.verticesSize as int == |c.vertices| * VertexSize
      && r.indicesOffset as int == offset as int + r.verticesSize as int
      && r.indicesSize as int == |c.indices| * IndexSize
      && OffsetAfter(r) as int == r.indicesOffset as int + r.indicesSize as int
      && VertexRegion(c) == VerticesCells(c.vertices)
  {
  }

  lemma {:induction false} BytesMonotone(cs: seq<Converted>, k: nat, n: nat)
    requires k <= n <= |cs|
    ensures Bytes(cs, k) <= Bytes(cs, n)
    decreases n - k
  {
    if k < n {
      BytesMonotone(cs, k, n - 1);
    }
  }

  /**
    * While the bytes of the first `n` meshes stay below 2^32 the counter
    * never wraps: it is exactly the bytes of those meshes, which is exactly
    * the bytes written.
    */
  lemma {:induction false} CounterExact(scene: seq<Mesh>, cs: seq<Converted>, n: nat, rs: Records, blob: seq<Cell>, bytes: nat)
    requires n <= |scene| == |cs|
    requires rs == RecordsPrefix(scene, cs, n) && blob == BlobPrefix(cs, n) && bytes == Bytes(cs, n)
    requires bytes < Two32
    ensures rs.offset as int == bytes == |blob| * 4
  {
    if n > 0 {
      var prev := RecordsPrefix(scene, cs, n - 1);
      var pblob := BlobPrefix(cs, n - 1);
      BytesMonotone(cs, n - 1, n);
      CounterExact(scene, cs, n - 1, prev, pblob, Bytes(cs, n - 1));
      CounterExactStep(prev.offset, |pblob|, scene[n - 1], cs[n - 1]);
    }
  }

  /** One mesh whose regions end below 2^32 moves an exact counter by exactly its bytes. */
  lemma CounterExactStep(offset: uint32, cells: nat, m: Mesh, c: Converted)
    requires offset as int == cells * 4
    requires offset as int + |c.vertices| * VertexSize + |c.indices| * IndexSize < Two32
    ensures OffsetAfter(RecordOf(offset, m, c)) as int
         == offset as int + |c.vertices| * VertexSize + |c.indices| * IndexSize
         == (cells + |VertexRegion(c)| + |IndicesCells(c.indices)|) * 4
  {
    NoWrapRecord(offset, m, c);
  }

  /**
    * Without wrap-around, record `k` stores exact sizes, its index region
    * starts where its vertex region ends, and its index region ends where the
    * next record starts, or, for the last, at the final counter.
    */
  lemma RecordExact(scene: seq<Mesh>, cs: seq<Converted>, n: nat, k: nat)
    requires k < n <= |scene| == |cs| && Bytes(cs, n) < Two32
    ensures var rs := RecordsPrefix(scene, cs, n);
      var r := rs.meshes[k];
      && r.verticesOffset as int == Bytes(cs, k)
      && r.verticesSize as int == |cs[k].vertices| * VertexSize
      && r.indicesSize as int == |cs[k].indices| * IndexSize
      && r.verticesOffset as int + r.verticesSize as int == r.indicesOffset as int
      && r.indicesOffset as int + r.indicesSize as int
         == (if k + 1 < n then rs.meshes[k + 1].verticesOffset as int else rs.offset as int)
  {
    BytesMonotone(cs, k + 1, n);
    CounterExact(scene, cs, k, RecordsPrefix(scene, cs, k), BlobPrefix(cs, k), Bytes(cs, k));
    CounterExact(scene, cs, k + 1, RecordsPrefix(scene, cs, k + 1), BlobPrefix(cs, k + 1), Bytes(cs, k + 1));
    RecordAt(scene, cs, n, k);
    NoWrapRecord(RecordsPrefix(scene, cs, k).offset, scene[k], cs[k]);
    if k + 1 < n {
      RecordAt(scene, cs, n, k + 1);
    } else {
      assert RecordsPrefix(scene, cs, n).offset == OffsetAfter(RecordsPrefix(scene, cs, n).meshes[k]);
    }
  }

  /**
    * Without wrap-around the regions are back to back from offset 0 and end
    * at the final counter, which is the number of bytes written.
    */
  lemma LayoutContiguous(scene: seq<Mesh>, cs: seq<Converted>, n: nat)
    requires n <= |scene| == |cs| && Bytes(cs, n) < Two32
    ensures var rs := RecordsPrefix(scene, cs, n);
      Contiguous(rs.meshes, rs.offset as int) && rs.offset as int == |BlobPrefix(cs, n)| * 4
  {
    var rs := RecordsPrefix(scene, cs, n);
    CounterExact(scene, cs, n, rs, BlobPrefix(cs, n), Bytes(cs, n));
    forall k | 0 <= k < n
      ensures rs.meshes[k].verticesOffset as int + rs.meshes[k].verticesSize as int == rs.meshes[k].indicesOffset as int
      ensures k < n - 1 ==>
        rs.meshes[k].indicesOffset as int + rs.meshes[k].indicesSize as int == rs.meshes[k + 1].verticesOffset as int
      ensures k == n - 1 ==> rs.meshes[k].indicesOffset as int + rs.meshes[k].indicesSize as int == rs.offset as int
    {
      RecordExact(scene, cs, n, k);
    }
    if n > 0 {
      RecordExact(scene, cs, n, 0);
    }
  }

  /** The cells written for meshes `k` up to `n`, in order. */
  function BlobRange(cs: seq<Converted>, k: nat, n: nat): seq<Cell>
    requires k <= n <= |cs|
    decreases n
  {
    if n == k then []
    else BlobRange(cs, k, n - 1) + VertexRegion(cs[n - 1]) + IndicesCells(cs[n - 1].indices)
  }

  /** The blob for `n` meshes is the blob for the first `k` followed by the cells of the rest. */
  lemma {:induction false} BlobSplit(cs: seq<Converted>, k: nat, n: nat)
    requires k <= n <= |cs|
    ensures BlobPrefix(cs, n) == BlobPrefix(cs, k) + BlobRange(cs, k, n)
  {
    if k < n {
      BlobSplit(cs, k, n - 1);
      BlobPrefixStep(cs, n - 1);
      ConcatAssoc(BlobPrefix(cs, k), BlobRange(cs, k, n - 1), VertexRegion(cs[n - 1]), IndicesCells(cs[n - 1].indices));
    }
  }

  lemma ConcatAssoc<T>(a: seq<T>, b: seq<T>, c: seq<T>, d: seq<T>)
    ensures ((a + b) + c) + d == a + ((b + c) + d)
  {
  }

  lemma BlobPrefixStep(cs: seq<Converted>, k: nat)
    requires k < |cs|
    ensures BlobPrefix(cs, k + 1) == BlobPrefix(cs, k) + VertexRegion(cs[k]) + IndicesCells(cs[k].indices)
  {
  }

  /**
    * Mesh `k`'s vertex region and index region follow the cells of the
    * meshes before it: in `blob`, the cells for all `n` meshes, they start
    * at `|before|`, the number of cells for the first `k`.
    */
  lemma BlobRegionsAt(cs: seq<Converted>, n: nat, k: nat, blob: seq<Cell>, before: seq<Cell>)
    requires k < n <= |cs| && blob == BlobPrefix(cs, n) && before == BlobPrefix(cs, k)
    ensures var x := VertexRegion(cs[k]);
      && |before| + |x| + |cs[k].indices| <= |blob|
      && blob[|before| .. |before| + |x|] == x
      && blob[|before| + |x| .. |before| + |x| + |cs[k].indices|] == IndicesCells(cs[k].indices)
  {
    BlobSplit(cs, k + 1, n);
    BlobPrefixStep(cs, k);
    SlicesOfConcat(blob, BlobPrefix(cs, k + 1),
      before, VertexRegion(cs[k]), IndicesCells(cs[k].indices), BlobRange(cs, k + 1, n));
  }

  /** The pieces of a concatenation are its slices. */
  lemma SlicesOfConcat<T>(whole: seq<T>, front: seq<T>, before: seq<T>, x: seq<T>, y: seq<T>, rest: seq<T>)
    requires front == before + x + y && whole == front + rest
    ensures |before| + |x| + |y| <= |whole|
    ensures whole[|before| .. |before| + |x|] == x
    ensures whole[|before| + |x| .. |before| + |x| + |y|] == y
  {
    assert forall t :: 0 <= t < |x| ==> whole[|before| .. |before| + |x|][t] == x[t];
    assert forall t :: 0 <= t < |y| ==> whole[|before| + |x| .. |before| + |x| + |y|][t] == y[t];
  }


  /**
    * Without wrap-around the blob holds, at record `k`'s offsets, exactly
    * mesh `k`'s vertex records and then its indices.
    */
  lemma RegionsAt(scene: seq<Mesh>, cs: seq<Converted>, n: nat, k: nat, blob: seq<Cell>, r: ExportMesh)
    requires k < n <= |scene| == |cs| && Bytes(cs, n) < Two32
    requires blob == BlobPrefix(cs, n) && r == RecordsPrefix(scene, cs, n).meshes[k]
    ensures var vStart := r.verticesOffset as int / 4;
      var iStart := r.indicesOffset as int / 4;
      && vStart + |cs[k].vertices| * FloatsPerVertex == iStart
      && iStart + |cs[k].indices| <= |blob|
      && blob[vStart .. iStart] == VerticesCells(cs[k].vertices)
      && blob[iStart .. iStart + |cs[k].indices|] == IndicesCells(cs[k].indices)
  {
    RecordOffsets(scene, cs, n, k, r, BlobPrefix(cs, k));
    BlobRegionsAt(cs, n, k, blob, BlobPrefix(cs, k));
  }

  /**
    * Without wrap-around a reader that takes record `k`'s offsets and counts
    * reads back exactly mesh `k`'s converted vertices and indices.
    */
  lemma RegionsRoundTrip(scene: seq<Mesh>, cs: seq<Converted>, n: nat, k: nat, blob: seq<Cell>, r: ExportMesh)
    requires k < n <= |scene| == |cs| && Bytes(cs, n) < Two32
    requires blob == BlobPrefix(cs, n) && r == RecordsPrefix(scene, cs, n).meshes[k]
    ensures var vStart := r.verticesOffset as int / 4;
      var iStart := r.indicesOffset as int / 4;
      && vStart + |cs[k].vertices| * FloatsPerVertex == iStart && iStart + |cs[k].indices| <= |blob|
      && AllFloats(blob[vStart .. iStart]) && DecodeVertices(blob[vStart .. iStart]) == cs[k].vertices
      && AllIndices(blob[iStart .. iStart + |cs[k].indices|])
      && DecodeIndices(blob[iStart .. iStart + |cs[k].indices|]) == cs[k].indices
  {
    RegionsAt(scene, cs, n, k, blob, r);
    var vStart := r.verticesOffset as int / 4;
    var iStart := r.indicesOffset as int / 4;
    DecodeRegions(blob[vStart .. iStart], blob[iStart .. iStart + |cs[k].indices|], cs[k].vertices, cs[k].indices);
  }

  lemma DecodeRegions(vcells: seq<Cell>, icells: seq<Cell>, vs: seq<ExportVertex>, ix: seq<IndexType>)
    requires vcells == VerticesCells(vs) && icells == IndicesCells(ix)
    ensures AllFloats(vcells) && DecodeVertices(vcells) == vs
    ensures AllIndices(icells) && DecodeIndices(icells) == ix
  {
    DecodeVerticesCells(vs);
    DecodeIndicesCells(ix);
  }

  /** Record `k`'s offsets, in cells, are where the blob holds its regions. */
  lemma RecordOffsets(scene: seq<Mesh>, cs: seq<Converted>, n: nat, k: nat, r: ExportMesh, before: seq<Cell>)
    requires k < n <= |scene| == |cs| && Bytes(cs, n) < Two32
    requires r == RecordsPrefix(scene, cs, n).meshes[k] && before == BlobPrefix(cs, k)
    ensures r.verticesOffset as int / 4 == |before|
    ensures r.indicesOffset as int / 4 == |before| + |VertexRegion(cs[k])|
    ensures |VertexRegion(cs[k])| == |cs[k].vertices| * FloatsPerVertex
    ensures VertexRegion(cs[k]) == VerticesCells(cs[k].vertices)
  {
    RecordExact(scene, cs, n, k);
    BytesMonotone(cs, k, n);
    CounterExact(scene, cs, k, RecordsPrefix(scene, cs, k), before, Bytes(cs, k));
    NoWrapRecord(RecordsPrefix(scene, cs, k).offset, scene[k], cs[k]);
  }


  /**
    * Adding a region of `size` bytes (stored modulo 2^32) to a counter that
    * matches `cells` cells, modulo 2^32, gives a counter that matches the
    * cells plus the region's.
    */
  lemma WrapAddBytes(counter: uint32, cells: nat, size: int, added: nat)
    requires counter as int == (cells * 4) % Two32
    requires size % Two32 == (added * 4) % Two32
    ensures Wrap32(counter as int + Wrap32(size) as int) as int == ((cells + added) * 4) % Two32
  {
    assert (cells + added) * 4 == cells * 4 + added * 4;
    ModAdd(cells * 4, added * 4, Two32);
    ModAdd(counter as int, Wrap32(size) as int, Two32);
  }

  /** A multiple of four stays a multiple of four modulo 2^32. */
  lemma WrapFourMultiple(x: nat)
    ensures Wrap32(4 * x) as int % 4 == 0
  {
    var q := (4 * x) / Two32;
    assert Wrap32(4 * x) as int == (x - q * 0x4000_0000) * 4 + 0;
    ModShift(0, x - q * 0x4000_0000, 4);
  }

  lemma ModAdd(a: int, b: int, n: int)
    requires 0 < n
    ensures (a + b) % n == ((a % n) + (b % n)) % n
  {
    var qa, qb := a / n, b / n;
    assert a == qa * n + a % n;
    assert b == qb * n + b % n;
    assert a + b == (qa + qb) * n + (a % n + b % n);
    ModShift(a % n + b % n, qa + qb, n);
  }

  lemma ModShift(r: int, q: int, n: int)
    requires 0 < n
    ensures (q * n + r) % n == r % n
  {
    var t := q * n + r;
    assert t == (q + r / n) * n + r % n;
    assert 0 <= r % n < n;
    DivUnique(t, q + r / n, r % n, n);
  }

  lemma DivUnique(t: int, q: int, r: int, n: int)
    requires 0 < n && 0 <= r < n && t == q * n + r
    ensures t % n == r
  {
    var q', r' := t / n, t % n;
    assert t == q' * n + r';
    if q' > q {
      assert (q' - q) * n == r - r';
      MulAtLeast(q' - q, n);
    } else if q' < q {
      assert (q - q') * n == r' - r;
      MulAtLeast(q - q', n);
    }
  }

  lemma MulAtLeast(a: int, n: int)
    requires 1 <= a && 0 < n
    ensures n <= a * n
  {
    assert a * n == n + (a - 1) * n;
    assert 0 <= (a - 1) * n;
  }

  /**
    * A mesh of three vertices and one triangle placed first: 168 bytes of
    * vertices at offset 0, then 12 bytes of indices at offset 168, and the
    * next mesh starts at 180.
    */
  lemma TriangleRecord(m: Mesh, c: Converted)
    requires |c.vertices| == 3 && |c.indices| == 3
    ensures var r := RecordOf(0, m, c);
      && r.numVertices == 3 && r.numIndices == 3
      && r.verticesOffset == 0 && r.verticesSize == 168
      && r.indicesOffset == 168 && r.indicesSize == 12
      && OffsetAfter(r) == 180
      && |VertexRegion(c)| == 42
  {
  }

  // ---------------------------------------------------------------------
  // The export loop
  // ---------------------------------------------------------------------

  /** The records of a scene whose only mesh is converted to `c`. */
  lemma SingleMeshRecords(scene: seq<Mesh>, cs: seq<Converted>, c: Converted)
    requires |scene| == 1 && cs == [c]
    ensures RecordsPrefix(scene, cs, 1) == Records([RecordOf(0, scene[0], c)], OffsetAfter(RecordOf(0, scene[0], c)))
  {
  }

  /**
    * The unit right triangle as a one-mesh scene, exported without
    * centring: its record sits at the origin with radius 1, holds 168 bytes
    * of vertices at offset 0 and 12 bytes of indices at offset 168, and the
    * file offset ends at 180.
    */
  lemma TriangleExported(scene: seq<Mesh>, raw: nat -> nat, drawn: nat, sqrt: real -> real,
                         stale: nat -> nat -> ExportVertex, cs: seq<Converted>)
    requires |scene| == 1 && (forall x :: SqrtAt(sqrt, x))
    requires |scene[0].vertices| == 3 && scene[0].vertices[0] == Vec3(0.0, 0.0, 0.0)
    requires scene[0].vertices[1] == Vec3(1.0, 0.0, 0.0) && scene[0].vertices[2] == Vec3(0.0, 1.0, 0.0)
    requires |scene[0].faces| == 1 && |scene[0].faces[0].indices| == 3
    requires SceneOk(scene, false) && cs == ConvertScene(scene, false, raw, drawn, sqrt, stale)
    ensures var rs := RecordsPrefix(scene, cs, 1);
      var r := rs.meshes[0];
      && r.position == Origin && r.radius == 1.0
      && r.numVertices == 3 && r.numIndices == 3
      && r.verticesOffset == 0 && r.verticesSize == 168
      && r.indicesOffset == 168 && r.indicesSize == 12
      && rs.offset == 180
  {
    var m := scene[0];
    var c := Convert(m, false, raw, drawn, sqrt, stale(0));
    assert cs == [c] by {
      ConvertPrefixAt(scene, false, raw, drawn, sqrt, stale, 1, 0);
    }
    assert c.position == Origin && c.radius == 1.0 by {
      TriangleRadius(m, raw, drawn, sqrt, stale(0));
    }
    assert |c.vertices| == 3 && |c.indices| == 3 by {
      ConvertShape(m, false, raw, drawn, sqrt, stale(0));
      assert m.faces[..0] == [];
    }
    TriangleRecord(m, c);
    SingleMeshRecords(scene, cs, c);
  }

  /** Every mesh is well formed, and, when meshes are centred, has a vertex to centre on. */
  predicate SceneOk(scene: seq<Mesh>, centre: bool) {
    forall k :: 0 <= k < |scene| ==> WellFormed(scene[k]) && (centre ==> 1 <= |scene[k].vertices|)
  }

  /** The generator's draw count once the first `k` meshes are converted, starting at `drawn`. */
  function DrawnBefore(scene: seq<Mesh>, centre: bool, k: nat, drawn: nat): nat
    requires k <= |scene| && SceneOk(scene, centre)
  {
    if k == 0 then drawn
    else DrawnBefore(scene, centre, k - 1, drawn) + Draws(scene[k - 1], centre)
  }

  /**
    * The first `n` meshes of `scene` converted in order, all sharing one
    * generator that starts at draw `drawn`; `stale(k)` stands for the
    * indeterminate content of mesh `k`'s fresh vertex records.
    */
  function ConvertPrefix(scene: seq<Mesh>, centre: bool, raw: nat -> nat, drawn: nat, sqrt: real -> real,
                         stale: nat -> nat -> ExportVertex, n: nat): (cs: seq<Converted>)
    requires SceneOk(scene, centre) && (forall x :: SqrtAt(sqrt, x)) && n <= |scene|
    ensures |cs| == n
  {
    if n == 0 then []
    else
      ConvertPrefix(scene, centre, raw, drawn, sqrt, stale, n - 1)
        + [Convert(scene[n - 1], centre, raw, DrawnBefore(scene, centre, n - 1, drawn), sqrt, stale(n - 1))]
  }

  function ConvertScene(scene: seq<Mesh>, centre: bool, raw: nat -> nat, drawn: nat, sqrt: real -> real,
                        stale: nat -> nat -> ExportVertex): (cs: seq<Converted>)
    requires SceneOk(scene, centre) && (forall x :: SqrtAt(sqrt, x))
    ensures |cs| == |scene|
  {
    ConvertPrefix(scene, centre, raw, drawn, sqrt, stale, |scene|)
  }

  /** Mesh `k` is converted with the generator where the meshes before it left it. */
  lemma {:induction false} ConvertPrefixAt(scene: seq<Mesh>, centre: bool, raw: nat -> nat, drawn: nat,
                                           sqrt: real -> real, stale: nat -> nat -> ExportVertex, n: nat, k: nat)
    requires SceneOk(scene, centre) && (forall x :: SqrtAt(sqrt, x)) && k < n <= |scene|
    ensures ConvertPrefix(scene, centre, raw, drawn, sqrt, stale, n)[k]
         == Convert(scene[k], centre, raw, DrawnBefore(scene, centre, k, drawn), sqrt, stale(k))
  {
    if k < n - 1 {
      ConvertPrefixAt(scene, centre, raw, drawn, sqrt, stale, n - 1, k);
    }
  }

  /**
    * Each converted mesh keeps its mesh's vertex count, flattens its faces
    * into the indices, and sits at the origin unless meshes are centred.
    */
  lemma ConvertSceneAt(scene: seq<Mesh>, centre: bool, raw: nat -> nat, drawn: nat, sqrt: real -> real,
                       stale: nat -> nat -> ExportVertex, k: nat)
    requires SceneOk(scene, centre) && (forall x :: SqrtAt(sqrt, x)) && k < |scene|
    ensures var c := ConvertScene(scene, centre, raw, drawn, sqrt, stale)[k];
      && |c.vertices| == |scene[k].vertices|
      && c.indices == FlattenFaces(scene[k].faces)
      && (!centre ==> c.position == Origin)
      && 0.0 <= c.radius
  {
    ConvertPrefixAt(scene, centre, raw, drawn, sqrt, stale, |scene|, k);
    ConvertShape(scene[k], centre, raw, DrawnBefore(scene, centre, k, drawn), sqrt, stale(k));
  }

  /** Converts mesh `i` into the reused `out`, as the scene conversion says. */
  method ConvertNext(scene: seq<Mesh>, centre: bool, i: nat, out: ConvertedMesh, gen: Generator,
                     sqrt: real -> real, stale: nat -> nat -> ExportVertex, ghost drawn: nat, ghost cs: seq<Converted>)
    requires SceneOk(scene, centre) && (forall x :: SqrtAt(sqrt, x)) && i < |scene|
    requires cs == ConvertScene(scene, centre, gen.raw, drawn, sqrt, stale)
    requires gen.drawn == DrawnBefore(scene, centre, i, drawn)
    modifies out, gen
    ensures gen.drawn == DrawnBefore(scene, centre, i + 1, drawn)
    ensures out.vertices == cs[i].vertices && out.indices == cs[i].indices
    ensures out.position == cs[i].position && out.radiusFromOrigo == cs[i].radius
  {
    ConvertPrefixAt(scene, centre, gen.raw, drawn, sqrt, stale, |scene|, i);
    out.Clear();
    ConvertMesh(scene[i], centre, out, gen, sqrt, stale(i));
  }

  /**
    * `ConvertAndExportMeshes`: converts the meshes in order, reusing one
    * converted mesh, writes each one's vertex region and index region to the
    * stream and gives the records. The result is the record sequence of the
    * converted scene, the stream grows by its blob, and the generator moves
    * on by the draws of every centred mesh.
    */
  method ConvertAndExportMeshes(scene: seq<Mesh>, centre: bool, stream: MeshDataStream, gen: Generator,
                                sqrt: real -> real, stale: nat -> nat -> ExportVertex)
      returns (exportMeshes: seq<ExportMesh>)
    requires SceneOk(scene, centre) && (forall x :: SqrtAt(sqrt, x)) && |scene| < Two32
    modifies stream, gen
    ensures var cs := ConvertScene(scene, centre, gen.raw, old(gen.drawn), sqrt, stale);
      && exportMeshes == RecordsPrefix(scene, cs, |scene|).meshes
      && stream.written == old(stream.written) + BlobPrefix(cs, |scene|)
    ensures gen.drawn == DrawnBefore(scene, centre, |scene|, old(gen.drawn))
  {
    ghost var cs := ConvertScene(scene, centre, gen.raw, gen.drawn, sqrt, stale);
    ghost var drawn0 := gen.drawn;
    exportMeshes := [];
    var currentFileOffset: uint32 := 0;
    var convertedMesh := new ConvertedMesh();
    for i := 0 to |scene|
      invariant gen.drawn == DrawnBefore(scene, centre, i, drawn0)
      invariant exportMeshes == RecordsPrefix(scene, cs, i).meshes
      invariant currentFileOffset == RecordsPrefix(scene, cs, i).offset
      invariant stream.written == old(stream.written) + BlobPrefix(cs, i)
    {
      ConvertNext(scene, centre, i, convertedMesh, gen, sqrt, stale, drawn0, cs);
      var exp := ExportStep(currentFileOffset, scene[i], convertedMesh, stream);
      BlobPrefixStep(cs, i);
      ConcatAssoc(old(stream.written), BlobPrefix(cs, i), VertexRegion(cs[i]), IndicesCells(cs[i].indices));
      currentFileOffset := OffsetAfter(exp);
      exportMeshes := exportMeshes + [exp];
    }
  }

  /**
    * The body of the export loop for one mesh: fills the record at the
    * current file offset and writes the mesh's vertex region (as many bytes
    * as the stored vertex size) and its whole index array.
    */
  method ExportStep(currentFileOffset: uint32, m: Mesh, convertedMesh: ConvertedMesh, stream: MeshDataStream)
      returns (exp: ExportMesh)
    modifies stream
    ensures var c := Converted(convertedMesh.vertices, convertedMesh.indices,
                               convertedMesh.position, convertedMesh.radiusFromOrigo);
      && exp == RecordOf(currentFileOffset, m, c)
      && stream.written == old(stream.written) + VertexRegion(c) + IndicesCells(c.indices)
  {
    ghost var c := Converted(convertedMesh.vertices, convertedMesh.indices,
                             convertedMesh.position, convertedMesh.radiusFromOrigo);
    var verticesSize := Wrap32(|convertedMesh.vertices| * VertexSize);
    var indicesSize := Wrap32(|convertedMesh.indices| * IndexSize);
    exp := ExportMesh(convertedMesh.position, convertedMesh.radiusFromOrigo, m.materialIndex,
      Wrap32(|convertedMesh.vertices|), currentFileOffset, verticesSize,
      Wrap32(|convertedMesh.indices|), 0, indicesSize);
    WrapFourMultiple(|convertedMesh.vertices| * FloatsPerVertex);
    stream.Write(VerticesCells(convertedMesh.vertices), verticesSize as int);
    var offset := Wrap32(currentFileOffset as int + verticesSize as int);
    exp := exp.(indicesOffset := offset);
    var indexBytes := |convertedMesh.indices| * IndexSize;
    assert indexBytes % 4 == 0 && indexBytes / 4 == |convertedMesh.indices| by {
      DivUnique(indexBytes, |convertedMesh.indices|, 0, 4);
    }
    stream.Write(IndicesCells(convertedMesh.indices), indexBytes);
  }
}
