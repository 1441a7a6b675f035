/** EMMesh: per-vertex attribute arrays and a triangle index list, fed
    into a mesh builder either unrolled (one vertex per index) or as
    indexed elements, and uploaded once. The GPU upload is modelled by
    keeping the two buffers the builder produced. */
module Meshes {
  import opened Common
  import opened MeshBuilder

  datatype Mesh = Mesh(
    positions: seq<Vec3>,
    uvs: seq<(real, real)>,
    normals: seq<Vec3>,
    colors: seq<(real, real, real, real)>,
    indices: seq<int>,
    numVertices: nat,
    numIndices: nat,
    isRenderable: bool,
    uploaded: Option<(seq<Scalar>, seq<int>)>)

  /** What a loaded mesh satisfies: one position per vertex, each optional
      array either empty or one entry per vertex, and every index a
      `uint32_t` naming an existing vertex. */
  predicate Valid(m: Mesh)
  {
    |m.positions| == m.numVertices &&
    (m.uvs == [] || |m.uvs| == m.numVertices) &&
    (m.normals == [] || |m.normals| == m.numVertices) &&
    (m.colors == [] || |m.colors| == m.numVertices) &&
    |m.indices| == m.numIndices &&
    forall i :: 0 <= i < |m.indices| ==> 0 <= m.indices[i] < m.numVertices && m.indices[i] < U32
  }

  /** The constructor: no data, zero counts, not renderable. */
  function NewMesh(): (m: Mesh)
    ensures Valid(m) && m.numVertices == 0 && m.numIndices == 0 && !m.isRenderable
    ensures m.positions == [] && m.indices == [] && m.uploaded == None
  {
    Mesh([], [], [], [], [], 0, 0, false, None)
  }

  /** The attribute getters hand out the array, or nothing (`NULL`) exactly
      when it is empty. */
  function GetPositions(m: Mesh): (r: Option<seq<Vec3>>)
    ensures r.None? <==> m.positions == []
    ensures r.Some? ==> r.value == m.positions
  {
    if m.positions == [] then None else Some(m.positions)
  }

  function GetUVs(m: Mesh): (r: Option<seq<(real, real)>>)
    ensures r.None? <==> m.uvs == []
    ensures r.Some? ==> r.value == m.uvs
  {
    if m.uvs == [] then None else Some(m.uvs)
  }

  function GetNormals(m: Mesh): (r: Option<seq<Vec3>>)
    ensures r.None? <==> m.normals == []
    ensures r.Some? ==> r.value == m.normals
  {
    if m.normals == [] then None else Some(m.normals)
  }

  function GetColors(m: Mesh): (r: Option<seq<(real, real, real, real)>>)
    ensures r.None? <==> m.colors == []
    ensures r.Some? ==> r.value == m.colors
  {
    if m.colors == [] then None else Some(m.colors)
  }

  /** Bytes one attribute makes `putVertex` emit: the builder call chosen
      by its usage, whatever the attribute's declared type. */
  function UsageBytes(u: Usage): nat
  {
    match u
    case Pos => 12
    case Uv => 8
    case Normal => 12
    case Color => 16
    case TexId => 4
    case OtherUsage => 0
  }

  /** Bytes `putVertex` emits for a format. */
  function EmittedBytes(fmt: seq<Attribute>): nat
  {
    if fmt == [] then 0 else UsageBytes(fmt[0].usage) + EmittedBytes(fmt[1..])
  }

  /** Vertices `putVertex` counts for a format: one per position attribute. */
  function PosCount(fmt: seq<Attribute>): nat
  {
    if fmt == [] then 0 else (if fmt[0].usage == Pos then 1 else 0) + PosCount(fmt[1..])
  }

  /** A format whose declared types match what `putVertex` writes: float
      triples for positions and normals, float pairs for texture
      coordinates, float quadruples for colours, one 32-bit integer for the
      texture id, and nothing else. */
  predicate Conventional(fmt: seq<Attribute>)
  {
    forall k :: 0 <= k < |fmt| ==> ConventionalAttribute(fmt[k])
  }

  predicate ConventionalAttribute(a: Attribute)
  {
    match a.usage
    case Pos => a.kind == Float && a.size == 3
    case Uv => a.kind == Float && a.size == 2
    case Normal => a.kind == Float && a.size == 3
    case Color => a.kind == Float && a.size == 4
    case TexId => (a.kind == UInt || a.kind == Int) && a.size == 1
    case OtherUsage => a.size == 0
  }

  /** The vertex size, attribute by attribute from the front. */
  lemma {:induction false} VertexNumBytesCons(fmt: seq<Attribute>)
    requires fmt != []
    ensures VertexNumBytes(fmt) == fmt[0].size * TypeWidth(fmt[0].kind) + VertexNumBytes(fmt[1..])
    decreases |fmt|
  {
    if |fmt| > 1 {
      var front := fmt[..|fmt| - 1];
      VertexNumBytesCons(front);
      assert front[1..] == fmt[1..][..|fmt[1..]| - 1];
    }
  }

  /** For a conventional format, `putVertex` writes exactly one vertex's
      bytes, so the buffer layout agrees with the format's stride. */
  lemma {:induction false} EmittedMatchesFormat(fmt: seq<Attribute>)
    requires Conventional(fmt)
    ensures EmittedBytes(fmt) == VertexNumBytes(fmt)
    decreases |fmt|
  {
    if fmt != [] {
      VertexNumBytesCons(fmt);
      assert Conventional(fmt[1..]) by {
        forall k | 0 <= k < |fmt[1..]|
          ensures fmt[1..][k] == fmt[k + 1]
        {
        }
      }
      EmittedMatchesFormat(fmt[1..]);
    }
  }

  /** `vertexID` can be read from every array `putVertex` may read. */
  predicate Readable(m: Mesh, id: int)
  {
    0 <= id < |m.positions| &&
    (m.uvs == [] || id < |m.uvs|) &&
    (m.normals == [] || id < |m.normals|) &&
    (m.colors == [] || id < |m.colors|)
  }

  /** One case of `putVertex`'s switch: the attribute's data when the mesh
      has it, the builder's default otherwise; TEXID always writes 0 and an
      unknown usage writes nothing. */
  function PutAttribute(m: Mesh, b: Builder, a: Attribute, id: int): (r: Builder)
    requires Readable(m, id) && |b.stack| >= 1
    ensures VertexBytes(r) == VertexBytes(b) + UsageBytes(a.usage)
    ensures r.numVertices == b.numVertices + (if a.usage == Pos then 1 else 0)
    ensures r.indexData == b.indexData && r.numIndices == b.numIndices
    ensures r.stack == b.stack && r.format == b.format
    ensures a.usage == Uv && m.uvs == [] ==> r == UvDefault(b)
    ensures a.usage == Normal && m.normals == [] ==> r == NormalDefault(b)
    ensures a.usage == Color && m.colors == [] ==> r == ColorDefault(b)
    ensures a.usage == TexId ==> r.vertexData == b.vertexData + [U32Val(0)]
  {
    match a.usage
    case Pos => Position(b, m.positions[id])
    case Uv => if m.uvs != [] then UvOf(b, m.uvs[id].0, m.uvs[id].1) else UvDefault(b)
    case Normal => if m.normals != [] then NormalOf(b, m.normals[id]) else NormalDefault(b)
    case Color =>
      if m.colors != [] then ColorRGBA(b, m.colors[id].0, m.colors[id].1, m.colors[id].2, m.colors[id].3)
      else ColorDefault(b)
    case TexId => TexIdOf(b, 0)
    case OtherUsage => b
  }

  /** The attributes of one vertex, in format order. */
  function PutAttributes(m: Mesh, b: Builder, attrs: seq<Attribute>, id: int): (r: Builder)
    requires Readable(m, id) && |b.stack| >= 1
    ensures VertexBytes(r) == VertexBytes(b) + EmittedBytes(attrs)
    ensures r.numVertices == b.numVertices + PosCount(attrs)
    ensures r.indexData == b.indexData && r.numIndices == b.numIndices
    ensures r.stack == b.stack && r.format == b.format
    decreases |attrs|
  {
    if attrs == [] then b
    else PutAttributes(m, PutAttribute(m, b, attrs[0], id), attrs[1..], id)
  }

  /** `putVertex`: one builder call per attribute of the builder's format. */
  function PutVertex(m: Mesh, b: Builder, id: int): (r: Builder)
    requires Readable(m, id) && |b.stack| >= 1
    ensures VertexBytes(r) == VertexBytes(b) + EmittedBytes(b.format)
    ensures r.numVertices == b.numVertices + PosCount(b.format)
    ensures r.indexData == b.indexData && r.numIndices == b.numIndices
    ensures r.stack == b.stack && r.format == b.format
  {
    PutAttributes(m, b, b.format, id)
  }

  /** `putVertex` for each id in turn. */
  function PutVertices(m: Mesh, b: Builder, ids: seq<int>): (r: Builder)
    requires |b.stack| >= 1 && forall i :: 0 <= i < |ids| ==> Readable(m, ids[i])
    ensures VertexBytes(r) == VertexBytes(b) + |ids| * EmittedBytes(b.format)
    ensures r.numVertices == b.numVertices + |ids| * PosCount(b.format)
    ensures r.indexData == b.indexData && r.numIndices == b.numIndices
    ensures r.stack == b.stack && r.format == b.format
    decreases |ids|
  {
    if ids == [] then b
    else
      MulSucc(|ids| - 1, EmittedBytes(b.format));
      MulSucc(|ids| - 1, PosCount(b.format));
      assert forall i :: 0 <= i < |ids[1..]| ==> Readable(m, ids[1..][i]);
      PutVertices(m, PutVertex(m, b, ids[0]), ids[1..])
  }

  /** `putMeshArrays`: nothing without positions or indices; otherwise one
      vertex per index, in index order, and no index data. */
  function PutMeshArrays(m: Mesh, b: Builder): (r: Builder)
    requires Valid(m) && |b.stack| >= 1
    ensures m.positions == [] || m.indices == [] ==> r == b
    ensures m.positions != [] && m.indices != [] ==>
      r == PutVertices(m, b, m.indices) &&
      r.numVertices == b.numVertices + m.numIndices * PosCount(b.format)
    ensures r.indexData == b.indexData && r.numIndices == b.numIndices
  {
    if m.positions == [] || m.indices == [] then b
    else
      assert forall i :: 0 <= i < |m.indices| ==> Readable(m, m.indices[i]);
      PutVertices(m, b, m.indices)
  }

  /** The vertex ids `0 .. n-1`. */
  function Iota(n: nat): (ids: seq<int>)
    ensures |ids| == n && forall i :: 0 <= i < n ==> ids[i] == i
  {
    seq(n, i => i)
  }

  /** Every vertex id of a valid mesh can be read. */
  lemma IotaReadable(m: Mesh)
    requires Valid(m)
    ensures forall i :: 0 <= i < |Iota(m.numVertices)| ==> Readable(m, Iota(m.numVertices)[i])
  {
  }

  /** `putMeshElements`: nothing without positions or indices; otherwise
      all the indices through `indexv`, then every vertex once, in order. */
  method PutMeshElements(m: Mesh, b: Builder) returns (r: Builder)
    requires Valid(m) && |b.stack| >= 1
    ensures m.positions == [] || m.indices == [] ==> r == b
    ensures m.positions != [] && m.indices != [] ==>
      r.indexData == b.indexData + OffsetIndices(m.indices, b.numIndices) &&
      r.numIndices == b.numIndices + m.numIndices &&
      r.numVertices == b.numVertices + m.numVertices * PosCount(b.format) &&
      VertexBytes(r) == VertexBytes(b) + m.numVertices * EmittedBytes(b.format)
    ensures r.stack == b.stack && r.format == b.format
  {
    if m.positions == [] || m.indices == [] {
      return b;
    }
    r := Indexv(b, m.numIndices, m.indices);
    assert m.indices[..m.numIndices] == m.indices;
    IotaReadable(m);
    r := PutVertices(m, r, Iota(m.numVertices));
  }

  /** Indices that already fit in 32 bits are stored unchanged by a
      builder whose index count is 0. */
  lemma OffsetByZero(idx: seq<int>)
    requires forall i :: 0 <= i < |idx| ==> 0 <= idx[i] < U32
    ensures OffsetIndices(idx, 0) == idx
  {
  }

  /** `makeRenderable`: the first call builds the mesh as elements in a
      fresh builder and uploads both buffers; the index buffer is then the
      mesh's own index list. Every later call changes nothing. */
  method MakeRenderable(m: Mesh, fmt: seq<Attribute>) returns (r: Mesh)
    requires Valid(m)
    ensures r.isRenderable && Valid(r)
    ensures m.isRenderable ==> r == m
    ensures !m.isRenderable ==>
      r == m.(isRenderable := true, uploaded := r.uploaded) && r.uploaded.Some? &&
      (m.positions != [] && m.indices != [] ==>
        r.uploaded.value.1 == m.indices &&
        ByteSize(r.uploaded.value.0) == m.numVertices * EmittedBytes(fmt))
  {
    if m.isRenderable {
      return m;
    }
    var b := NewBuilder(fmt);
    b := PutMeshElements(m, b);
    if m.positions != [] && m.indices != [] {
      OffsetByZero(m.indices);
    }
    r := m.(isRenderable := true, uploaded := Some((GetVertexBuffer(b).0, GetIndexBuffer(b).0)));
    UploadKeepsValid(m, r);
  }

  /** Marking a mesh renderable and recording its upload leaves its data,
      and so its validity, alone. */
  lemma UploadKeepsValid(m: Mesh, r: Mesh)
    requires Valid(m) && r == m.(isRenderable := r.isRenderable, uploaded := r.uploaded)
    ensures Valid(r)
  {
  }
}
