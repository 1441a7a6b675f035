/** EMMeshBuilder: accumulates interleaved vertex data and 32-bit indices
    for one vertex format, transforming positions and normals by the top of
    a model-view matrix stack. Buffers are modelled as sequences of typed
    scalars (their byte size is the sum of the scalar widths) and of
    unsigned 32-bit index values; the bit patterns of floats are not
    modelled. */
module MeshBuilder {
  import opened Common

  /** 2^32: index values are `uint32_t` and wrap. */
  const U32: int := 0x1_0000_0000

  // ---------------------------------------------------------------------
  // Vertex formats and scalars
  // ---------------------------------------------------------------------

  datatype AttribType = Int | UInt | Short | UShort | Byte | UByte | Float | Double

  /** Bytes per component, as `vertex` copies them. */
  function TypeWidth(t: AttribType): (w: nat)
    ensures w in {1, 2, 4, 8}
  {
    match t
    case Int => 4
    case UInt => 4
    case Short => 2
    case UShort => 2
    case Byte => 1
    case UByte => 1
    case Float => 4
    case Double => 8
  }

  datatype Usage = Pos | Uv | Normal | Color | TexId | OtherUsage

  /** One attribute of a vertex format: component type, component count
      and what it is used for. */
  datatype Attribute = Attribute(kind: AttribType, size: nat, usage: Usage)

  /** The component types of a format, one per component, attribute by
      attribute. */
  function FlatKinds(fmt: seq<Attribute>): seq<AttribType>
  {
    if fmt == [] then []
    else FlatKinds(fmt[..|fmt| - 1]) + seq(fmt[|fmt| - 1].size, j => fmt[|fmt| - 1].kind)
  }

  /** How many values `vertex` reads for a format. */
  function ArgCount(fmt: seq<Attribute>): nat
  {
    |FlatKinds(fmt)|
  }

  /** Bytes of one vertex: each attribute contributes its component count
      times its component width. */
  function VertexNumBytes(fmt: seq<Attribute>): nat
  {
    if fmt == [] then 0
    else VertexNumBytes(fmt[..|fmt| - 1]) + fmt[|fmt| - 1].size * TypeWidth(fmt[|fmt| - 1].kind)
  }

  /** A value in a buffer, tagged with its C type. */
  datatype Scalar = I32(i: int) | I16(i: int) | I8(i: int) | U32Val(i: int) | F32(x: real) | F64(x: real)

  function ScalarWidth(s: Scalar): nat
  {
    match s
    case I32(_) => 4
    case I16(_) => 2
    case I8(_) => 1
    case U32Val(_) => 4
    case F32(_) => 4
    case F64(_) => 8
  }

  /** Size in bytes of a run of scalars. */
  function ByteSize(s: seq<Scalar>): nat
  {
    if s == [] then 0 else ByteSize(s[..|s| - 1]) + ScalarWidth(s[|s| - 1])
  }

  lemma {:induction false} ByteSizeAppend(a: seq<Scalar>, b: seq<Scalar>)
    ensures ByteSize(a + b) == ByteSize(a) + ByteSize(b)
    decreases |b|
  {
    if b == [] {
      assert a + b == a;
    } else {
      assert (a + b)[..|a + b| - 1] == a + b[..|b| - 1];
      ByteSizeAppend(a, b[..|b| - 1]);
    }
  }

  /** A run of single-precision floats takes four bytes each. */
  lemma {:induction false} FloatsBytes(s: seq<Scalar>)
    requires forall i :: 0 <= i < |s| ==> s[i].F32?
    ensures ByteSize(s) == 4 * |s|
    decreases |s|
  {
    if s != [] {
      FloatsBytes(s[..|s| - 1]);
    }
  }

  // ---------------------------------------------------------------------
  // Matrices
  // ---------------------------------------------------------------------

  /** A 4x4 matrix, column-major: row `r`, column `c` is `m[4 * c + r]`. */
  type Mat4 = m: seq<real> | |m| == 16 witness Identity

  const Identity: seq<real> :=
    [1.0, 0.0, 0.0, 0.0,
     0.0, 1.0, 0.0, 0.0,
     0.0, 0.0, 1.0, 0.0,
     0.0, 0.0, 0.0, 1.0]

  datatype Vec3 = Vec3(x: real, y: real, z: real)

  /** `m * vec4(p, 1)`, first three components. */
  function TransformPoint(m: Mat4, p: Vec3): Vec3
  {
    Vec3(m[0] * p.x + m[4] * p.y + m[8] * p.z + m[12],
         m[1] * p.x + m[5] * p.y + m[9] * p.z + m[13],
         m[2] * p.x + m[6] * p.y + m[10] * p.z + m[14])
  }

  /** The upper-left 3x3 block of `m` applied to `v`. */
  function TransformDirection(m: Mat4, v: Vec3): Vec3
  {
    Vec3(m[0] * v.x + m[4] * v.y + m[8] * v.z,
         m[1] * v.x + m[5] * v.y + m[9] * v.z,
         m[2] * v.x + m[6] * v.y + m[10] * v.z)
  }

  /** Under the identity nothing moves. */
  lemma IdentityFixes(p: Vec3)
    ensures TransformPoint(Identity, p) == p && TransformDirection(Identity, p) == p
  {
  }

  // ---------------------------------------------------------------------
  // The builder
  // ---------------------------------------------------------------------

  datatype Builder = Builder(
    format: seq<Attribute>,
    vertexData: seq<Scalar>,
    indexData: seq<int>,
    numVertices: nat,
    numIndices: nat,
    stack: seq<Mat4>)

  const DefaultNormal: Vec3 := Vec3(0.0, 1.0, 0.0)
  const DefaultUV: (real, real) := (0.0, 0.0)
  const DefaultColor: (real, real, real, real) := (1.0, 1.0, 1.0, 1.0)

  /** Bytes in the vertex buffer. */
  function VertexBytes(b: Builder): nat { ByteSize(b.vertexData) }

  /** Bytes in the index buffer: four per index. */
  function IndexBytes(b: Builder): nat { 4 * |b.indexData| }

  /** The model-view matrix currently applied. */
  function Top(b: Builder): Mat4
    requires |b.stack| >= 1
  {
    b.stack[|b.stack| - 1]
  }

  /** The constructor: empty buffers, zero counts and a stack holding only
      the identity. */
  function NewBuilder(fmt: seq<Attribute>): (b: Builder)
    ensures b.format == fmt && VertexBytes(b) == 0 && IndexBytes(b) == 0
    ensures b.numVertices == 0 && b.numIndices == 0
    ensures |b.stack| == 1 && Top(b) == Identity
  {
    Builder(fmt, [], [], 0, 0, [Identity])
  }

  /** `reset`: empties both buffers and zeroes both counts; the format and
      the matrix stack are kept. */
  function Reset(b: Builder): (r: Builder)
    ensures VertexBytes(r) == 0 && IndexBytes(r) == 0 && r.vertexData == [] && r.indexData == []
    ensures r.numVertices == 0 && r.numIndices == 0
    ensures r.stack == b.stack && r.format == b.format
  {
    b.(vertexData := [], indexData := [], numVertices := 0, numIndices := 0)
  }

  /** `pushVertexData`: appends exactly the given bytes. */
  function PushVertexData(b: Builder, data: seq<Scalar>): (r: Builder)
    ensures VertexBytes(r) == VertexBytes(b) + ByteSize(data)
    ensures |r.vertexData| == |b.vertexData| + |data|
    ensures r.vertexData[..|b.vertexData|] == b.vertexData && r.vertexData[|b.vertexData|..] == data
    ensures r.indexData == b.indexData && r.numVertices == b.numVertices
    ensures r.numIndices == b.numIndices && r.stack == b.stack && r.format == b.format
  {
    ByteSizeAppend(b.vertexData, data);
    b.(vertexData := b.vertexData + data)
  }

  /** `pushIndexData`: appends exactly the given indices (four bytes each). */
  function PushIndexData(b: Builder, idx: seq<int>): (r: Builder)
    ensures IndexBytes(r) == IndexBytes(b) + 4 * |idx|
    ensures |r.indexData| == |b.indexData| + |idx|
    ensures r.indexData[..|b.indexData|] == b.indexData && r.indexData[|b.indexData|..] == idx
    ensures r.vertexData == b.vertexData && r.numVertices == b.numVertices
    ensures r.numIndices == b.numIndices && r.stack == b.stack && r.format == b.format
  {
    b.(indexData := b.indexData + idx)
  }

  function Vec3Scalars(v: Vec3): seq<Scalar>
  {
    [F32(v.x), F32(v.y), F32(v.z)]
  }

  /** `position`: the transformed point, 12 bytes, and one more vertex. */
  function Position(b: Builder, p: Vec3): (r: Builder)
    requires |b.stack| >= 1
    ensures VertexBytes(r) == VertexBytes(b) + 12 && r.numVertices == b.numVertices + 1
    ensures r.vertexData == b.vertexData + Vec3Scalars(TransformPoint(Top(b), p))
    ensures r.indexData == b.indexData && r.numIndices == b.numIndices && r.stack == b.stack
  {
    FloatsBytes(Vec3Scalars(TransformPoint(Top(b), p)));
    PushVertexData(b, Vec3Scalars(TransformPoint(Top(b), p))).(numVertices := b.numVertices + 1)
  }

  /** `normal`: the direction transformed by the 3x3 block, 12 bytes;
      the vertex count is unchanged. */
  function NormalOf(b: Builder, n: Vec3): (r: Builder)
    requires |b.stack| >= 1
    ensures VertexBytes(r) == VertexBytes(b) + 12 && r.numVertices == b.numVertices
    ensures r.vertexData == b.vertexData + Vec3Scalars(TransformDirection(Top(b), n))
    ensures r.indexData == b.indexData && r.numIndices == b.numIndices && r.stack == b.stack
  {
    FloatsBytes(Vec3Scalars(TransformDirection(Top(b), n)));
    PushVertexData(b, Vec3Scalars(TransformDirection(Top(b), n)))
  }

  /** `normalDefault`: the normal (0, 1, 0). */
  function NormalDefault(b: Builder): (r: Builder)
    requires |b.stack| >= 1
    ensures r == NormalOf(b, DefaultNormal)
    ensures Top(b) == Identity ==> r.vertexData == b.vertexData + [F32(0.0), F32(1.0), F32(0.0)]
  {
    NormalOf(b, DefaultNormal)
  }

  /** `uv`: 8 bytes, not transformed. */
  function UvOf(b: Builder, u: real, v: real): (r: Builder)
    ensures VertexBytes(r) == VertexBytes(b) + 8 && r.numVertices == b.numVertices
    ensures r.vertexData == b.vertexData + [F32(u), F32(v)]
    ensures r.indexData == b.indexData && r.numIndices == b.numIndices && r.stack == b.stack
  {
    FloatsBytes([F32(u), F32(v)]);
    PushVertexData(b, [F32(u), F32(v)])
  }

  /** `uvDefault`: the coordinates (0, 0). */
  function UvDefault(b: Builder): (r: Builder)
    ensures r == UvOf(b, 0.0, 0.0)
  {
    UvOf(b, DefaultUV.0, DefaultUV.1)
  }

  /** `colorRGBA`: 16 bytes. */
  function ColorRGBA(b: Builder, red: real, green: real, blue: real, alpha: real): (r: Builder)
    ensures VertexBytes(r) == VertexBytes(b) + 16 && r.numVertices == b.numVertices
    ensures r.vertexData == b.vertexData + [F32(red), F32(green), F32(blue), F32(alpha)]
    ensures r.indexData == b.indexData && r.numIndices == b.numIndices && r.stack == b.stack
  {
    FloatsBytes([F32(red), F32(green), F32(blue), F32(alpha)]);
    PushVertexData(b, [F32(red), F32(green), F32(blue), F32(alpha)])
  }

  /** `colorRGB`: the default alpha, 1. */
  function ColorRGB(b: Builder, red: real, green: real, blue: real): (r: Builder)
    ensures r == ColorRGBA(b, red, green, blue, 1.0)
  {
    ColorRGBA(b, red, green, blue, DefaultColor.3)
  }

  /** `colorDefault`: opaque white. */
  function ColorDefault(b: Builder): (r: Builder)
    ensures r == ColorRGBA(b, 1.0, 1.0, 1.0, 1.0)
  {
    ColorRGBA(b, DefaultColor.0, DefaultColor.1, DefaultColor.2, DefaultColor.3)
  }

  /** `texid`: one unsigned 32-bit value, 4 bytes. */
  function TexIdOf(b: Builder, texid: int): (r: Builder)
    ensures VertexBytes(r) == VertexBytes(b) + 4 && r.numVertices == b.numVertices
    ensures r.vertexData == b.vertexData + [U32Val(texid % U32)] && 0 <= texid % U32 < U32
    ensures r.indexData == b.indexData && r.numIndices == b.numIndices && r.stack == b.stack
  {
    assert ByteSize([U32Val(texid % U32)]) == 4 by {
      assert [U32Val(texid % U32)][..0] == [];
    }
    PushVertexData(b, [U32Val(texid % U32)])
  }

  // ---------------------------------------------------------------------
  // Indices
  // ---------------------------------------------------------------------

  /** The indices as stored: each source index plus `base`, as `uint32_t`. */
  function OffsetIndices(src: seq<int>, base: int): (r: seq<int>)
    ensures |r| == |src|
  {
    seq(|src|, i requires 0 <= i < |src| => (src[i] + base) % U32)
  }

  /** Every stored index is a `uint32_t`: its source index plus the base,
      wrapped. */
  lemma OffsetIndicesElement(src: seq<int>, base: int, i: int)
    requires 0 <= i < |src|
    ensures 0 <= OffsetIndices(src, base)[i] < U32
    ensures (src[i] + base) - OffsetIndices(src, base)[i] == U32 * ((src[i] + base) / U32)
  {
  }

  lemma OffsetIndicesAppend(a: seq<int>, b: seq<int>, base: int)
    ensures OffsetIndices(a + b, base) == OffsetIndices(a, base) + OffsetIndices(b, base)
  {
  }

  /** At most 64 indices are taken per `index` call. */
  const MaxIndexArgs: nat := 64

  function ClampCount(n: nat): (m: nat)
    ensures m <= MaxIndexArgs && m <= n
    ensures n <= MaxIndexArgs ==> m == n
  {
    if MaxIndexArgs < n then MaxIndexArgs else n
  }

  /** `index(n, ...)`: takes at most 64 indices, offsets each by the
      current index count (not the vertex count) and adds the number
      taken to the index count. */
  function Index(b: Builder, n: nat, args: seq<int>): (r: Builder)
    requires |args| >= ClampCount(n)
    ensures r.indexData == b.indexData + OffsetIndices(args[..ClampCount(n)], b.numIndices)
    ensures r.numIndices == b.numIndices + ClampCount(n)
    ensures IndexBytes(r) == IndexBytes(b) + 4 * ClampCount(n)
    ensures r.vertexData == b.vertexData && r.numVertices == b.numVertices && r.stack == b.stack
    ensures r.format == b.format
  {
    var m := ClampCount(n);
    PushIndexData(b, OffsetIndices(args[..m], b.numIndices)).(numIndices := b.numIndices + m)
  }

  /** Size of the staging array `indexv` flushes from. */
  const IndexBatch: nat := 128

  /** `indexv`: copies `n` indices through a 128-entry staging array,
      flushing it whenever it fills and once more at the end. Whatever the
      batching, the buffer gains exactly the offset indices in order. */
  method Indexv(b: Builder, n: nat, input: seq<int>) returns (r: Builder)
    requires n <= |input|
    ensures r.indexData == b.indexData + OffsetIndices(input[..n], b.numIndices)
    ensures r.numIndices == b.numIndices + n
    ensures IndexBytes(r) == IndexBytes(b) + 4 * n
    ensures r.vertexData == b.vertexData && r.numVertices == b.numVertices && r.stack == b.stack
    ensures r.format == b.format
  {
    r := b;
    var staged: seq<int> := [];
    var i := 0;
    while i < n
      invariant 0 <= i <= n && |staged| < IndexBatch && |staged| <= i
      invariant r.indexData + staged == b.indexData + OffsetIndices(input[..i], b.numIndices)
      invariant r.numIndices == b.numIndices
      invariant r.vertexData == b.vertexData && r.numVertices == b.numVertices && r.stack == b.stack
      invariant r.format == b.format
    {
      var v := (input[i] + b.numIndices) % U32;
      assert input[..i + 1] == input[..i] + [input[i]];
      OffsetIndicesAppend(input[..i], [input[i]], b.numIndices);
      assert OffsetIndices([input[i]], b.numIndices) == [v];
      assert r.indexData + (staged + [v]) == (r.indexData + staged) + [v];
      staged := staged + [v];
      if IndexBatch <= |staged| {
        r := PushIndexData(r, staged);
        staged := [];
        assert r.indexData + staged == r.indexData;
      }
      i := i + 1;
    }
    if 0 < |staged| {
      r := PushIndexData(r, staged);
    }
    r := r.(numIndices := b.numIndices + n);
  }

  // ---------------------------------------------------------------------
  // Whole vertices
  // ---------------------------------------------------------------------

  /** A value passed through the variadic argument list. */
  datatype Arg = IntArg(i: int) | RealArg(x: real)

  /** Integer components are read as `int32_t`, floating components as
      `double`; a mismatch is undefined behaviour. */
  predicate ArgFits(t: AttribType, a: Arg)
  {
    if t == Float || t == Double then a.RealArg? else a.IntArg?
  }

  /** `v` narrowed to `int16_t`: the two's-complement value of its low 16 bits. */
  function ToInt16(v: int): (r: int)
    ensures -0x8000 <= r < 0x8000
    ensures -0x8000 <= v < 0x8000 ==> r == v
  {
    var low := v % 0x1_0000;
    if low >= 0x8000 then low - 0x1_0000 else low
  }

  /** `v` narrowed to `int8_t`: the two's-complement value of its low 8 bits. */
  function ToInt8(v: int): (r: int)
    ensures -0x80 <= r < 0x80
    ensures -0x80 <= v < 0x80 ==> r == v
  {
    var low := v % 0x100;
    if low >= 0x80 then low - 0x100 else low
  }

  /** One component as `vertex` stores it: narrowed to the attribute's
      width for integers. */
  function Convert(t: AttribType, a: Arg): (s: Scalar)
    requires ArgFits(t, a)
    ensures ScalarWidth(s) == TypeWidth(t)
  {
    match t
    case Int => I32(a.i)
    case UInt => I32(a.i)
    case Short => I16(ToInt16(a.i))
    case UShort => I16(ToInt16(a.i))
    case Byte => I8(ToInt8(a.i))
    case UByte => I8(ToInt8(a.i))
    case Float => F32(a.x)
    case Double => F64(a.x)
  }

  predicate ArgsFit(fmt: seq<Attribute>, args: seq<Arg>)
  {
    |args| == ArgCount(fmt) && forall i :: 0 <= i < |args| ==> ArgFits(FlatKinds(fmt)[i], args[i])
  }

  /** The components of a vertex in format order, before the position is
      transformed. */
  function Encode(fmt: seq<Attribute>, args: seq<Arg>): (r: seq<Scalar>)
    requires ArgsFit(fmt, args)
    ensures |r| == |args|
    ensures forall i :: 0 <= i < |r| ==> r[i] == Convert(FlatKinds(fmt)[i], args[i])
  {
    seq(|args|, i requires 0 <= i < |args| && ArgsFit(fmt, args) => Convert(FlatKinds(fmt)[i], args[i]))
  }

  /** Total width of a run of component types. */
  function KindsBytes(ks: seq<AttribType>): nat
  {
    if ks == [] then 0 else KindsBytes(ks[..|ks| - 1]) + TypeWidth(ks[|ks| - 1])
  }

  lemma {:induction false} KindsBytesAppend(a: seq<AttribType>, b: seq<AttribType>)
    ensures KindsBytes(a + b) == KindsBytes(a) + KindsBytes(b)
    decreases |b|
  {
    if b == [] {
      assert a + b == a;
    } else {
      assert (a + b)[..|a + b| - 1] == a + b[..|b| - 1];
      KindsBytesAppend(a, b[..|b| - 1]);
    }
  }

  lemma {:induction false} KindsBytesRepeat(t: AttribType, n: nat)
    ensures KindsBytes(seq(n, j => t)) == n * TypeWidth(t)
  {
    if n > 0 {
      assert seq(n, j => t)[..n - 1] == seq(n - 1, j => t);
      KindsBytesRepeat(t, n - 1);
    }
  }

  /** The widths of the components add up to the format's vertex size. */
  lemma {:induction false} FlatKindsBytes(fmt: seq<Attribute>)
    ensures KindsBytes(FlatKinds(fmt)) == VertexNumBytes(fmt)
    decreases |fmt|
  {
    if fmt != [] {
      var last := fmt[|fmt| - 1];
      FlatKindsBytes(fmt[..|fmt| - 1]);
      KindsBytesAppend(FlatKinds(fmt[..|fmt| - 1]), seq(last.size, j => last.kind));
      KindsBytesRepeat(last.kind, last.size);
    }
  }

  /** Scalars converted from components take as many bytes as the
      components' types say. */
  lemma {:induction false} EncodedBytes(ks: seq<AttribType>, s: seq<Scalar>)
    requires |s| == |ks| && forall i :: 0 <= i < |s| ==> ScalarWidth(s[i]) == TypeWidth(ks[i])
    ensures ByteSize(s) == KindsBytes(ks)
    decreases |s|
  {
    if s != [] {
      EncodedBytes(ks[..|ks| - 1], s[..|s| - 1]);
    }
  }

  /** Where the position sits among the components: the start of the last
      attribute used as a position, and that attribute. */
  function PosSlot(fmt: seq<Attribute>): (r: Option<(nat, Attribute)>)
    ensures r.Some? ==> r.value.1.usage == Pos && r.value.0 + r.value.1.size <= ArgCount(fmt)
    ensures r.Some? ==> forall i :: r.value.0 <= i < r.value.0 + r.value.1.size ==> FlatKinds(fmt)[i] == r.value.1.kind
    ensures r.None? <==> forall k :: 0 <= k < |fmt| ==> fmt[k].usage != Pos
    decreases |fmt|
  {
    if fmt == [] then None
    else
      var last := fmt[|fmt| - 1];
      var front := fmt[..|fmt| - 1];
      if last.usage == Pos then Some((ArgCount(front), last))
      else
        var rest := PosSlot(front);
        assert forall k :: 0 <= k < |front| ==> fmt[k] == front[k];
        assert FlatKinds(fmt) == FlatKinds(front) + seq(last.size, j => last.kind);
        rest
  }

  /** What `vertex` asserts and relies on: a three-float position attribute
      and a vertex that fits its 1024-byte staging array. */
  predicate VertexReady(b: Builder)
  {
    |b.stack| >= 1 && VertexNumBytes(b.format) <= 1024 &&
    PosSlot(b.format).Some? && PosSlot(b.format).value.1.size == 3 && PosSlot(b.format).value.1.kind == Float
  }

  /** A run of scalars whose widths follow a format's component types
      takes exactly one vertex's bytes. */
  lemma RecordBytes(fmt: seq<Attribute>, rec: seq<Scalar>)
    requires |rec| == ArgCount(fmt)
    requires forall i :: 0 <= i < |rec| ==> ScalarWidth(rec[i]) == TypeWidth(FlatKinds(fmt)[i])
    ensures ByteSize(rec) == VertexNumBytes(fmt)
  {
    EncodedBytes(FlatKinds(fmt), rec);
    FlatKindsBytes(fmt);
  }

  /** The position a vertex call passes, read from its three float slots. */
  function PositionArg(b: Builder, args: seq<Arg>): (p: Vec3)
    requires VertexReady(b) && ArgsFit(b.format, args)
    ensures var o := PosSlot(b.format).value.0;
            args[o] == RealArg(p.x) && args[o + 1] == RealArg(p.y) && args[o + 2] == RealArg(p.z)
  {
    var o := PosSlot(b.format).value.0;
    assert FlatKinds(b.format)[o] == Float && FlatKinds(b.format)[o + 1] == Float && FlatKinds(b.format)[o + 2] == Float;
    assert ArgFits(FlatKinds(b.format)[o], args[o]) && ArgFits(FlatKinds(b.format)[o + 1], args[o + 1]);
    assert ArgFits(FlatKinds(b.format)[o + 2], args[o + 2]);
    Vec3(args[o].x, args[o + 1].x, args[o + 2].x)
  }

  /** Replacing three elements at `o` keeps the length and every other
      element. */
  lemma Splice3<T>(a: seq<T>, o: nat, mid: seq<T>)
    requires o + 3 <= |a| && |mid| == 3
    ensures var r := a[..o] + mid + a[o + 3..];
            |r| == |a| && r[o..o + 3] == mid &&
            (forall i :: 0 <= i < |a| && !(o <= i < o + 3) ==> r[i] == a[i]) &&
            (forall i :: o <= i < o + 3 ==> r[i] == mid[i - o])
  {
  }

  /** Three floats spliced over three float slots keep every scalar as
      wide as its component type. */
  lemma SpliceWidths(kinds: seq<AttribType>, enc: seq<Scalar>, o: nat, mid: seq<Scalar>)
    requires |enc| == |kinds| && o + 3 <= |kinds| && |mid| == 3
    requires forall i :: 0 <= i < |enc| ==> ScalarWidth(enc[i]) == TypeWidth(kinds[i])
    requires kinds[o] == kinds[o + 1] == kinds[o + 2] == Float
    requires mid[0].F32? && mid[1].F32? && mid[2].F32?
    ensures var r := enc[..o] + mid + enc[o + 3..];
            forall i :: 0 <= i < |r| ==> ScalarWidth(r[i]) == TypeWidth(kinds[i])
  {
    var r := enc[..o] + mid + enc[o + 3..];
    Splice3(enc, o, mid);
    forall i | 0 <= i < |r|
      ensures ScalarWidth(r[i]) == TypeWidth(kinds[i])
    {
      if o <= i < o + 3 {
        assert r[i] == mid[i - o];
      }
    }
  }

  /** The bytes of one vertex as `vertex` stages them: every component
      converted to its attribute's type, the position replaced by its
      transform under the current matrix. */
  function VertexRecord(b: Builder, args: seq<Arg>): (rec: seq<Scalar>)
    requires VertexReady(b) && ArgsFit(b.format, args)
    ensures |rec| == |args| && ByteSize(rec) == VertexNumBytes(b.format)
    ensures var o := PosSlot(b.format).value.0;
            rec[o..o + 3] == Vec3Scalars(TransformPoint(Top(b), PositionArg(b, args)))
    ensures var o := PosSlot(b.format).value.0;
            forall i :: 0 <= i < |args| && !(o <= i < o + 3) ==> rec[i] == Convert(FlatKinds(b.format)[i], args[i])
  {
    var o := PosSlot(b.format).value.0;
    var enc := Encode(b.format, args);
    var mid := Vec3Scalars(TransformPoint(Top(b), PositionArg(b, args)));
    var rec := enc[..o] + mid + enc[o + 3..];
    Splice3(enc, o, mid);
    SpliceWidths(FlatKinds(b.format), enc, o, mid);
    RecordBytes(b.format, rec);
    rec
  }

  /** `vertex(...)`: one whole vertex in the builder's format, with its
      position transformed by the current matrix; the vertex count grows by
      exactly one and the vertex buffer by exactly one vertex's bytes. */
  function Vertex(b: Builder, args: seq<Arg>): (r: Builder)
    requires VertexReady(b) && ArgsFit(b.format, args)
    ensures r.numVertices == b.numVertices + 1
    ensures VertexBytes(r) == VertexBytes(b) + VertexNumBytes(b.format)
    ensures r.indexData == b.indexData && r.numIndices == b.numIndices && r.stack == b.stack
    ensures r.vertexData == b.vertexData + VertexRecord(b, args)
  {
    PushVertexData(b, VertexRecord(b, args)).(numVertices := b.numVertices + 1)
  }

  // ---------------------------------------------------------------------
  // Buffers and the matrix stack
  // ---------------------------------------------------------------------

  /** `getVertexBuffer`: the data and its current size in bytes. */
  function GetVertexBuffer(b: Builder): (r: (seq<Scalar>, nat))
    ensures r.0 == b.vertexData && r.1 == VertexBytes(b)
  {
    (b.vertexData, ByteSize(b.vertexData))
  }

  /** `getIndexBuffer`: the indices and their current size in bytes. */
  function GetIndexBuffer(b: Builder): (r: (seq<int>, nat))
    ensures r.0 == b.indexData && r.1 == 4 * |r.0|
  {
    (b.indexData, 4 * |b.indexData|)
  }

  /** `pushMatrix`: duplicates the top. */
  function PushMatrix(b: Builder): (r: Builder)
    requires |b.stack| >= 1
    ensures |r.stack| == |b.stack| + 1 && Top(r) == Top(b) && r.stack[..|b.stack|] == b.stack
    ensures r.vertexData == b.vertexData && r.indexData == b.indexData
    ensures r.numVertices == b.numVertices && r.numIndices == b.numIndices
  {
    b.(stack := b.stack + [Top(b)])
  }

  /** `popMatrix`: removes the top. */
  function PopMatrix(b: Builder): (r: Builder)
    requires |b.stack| >= 1
    ensures |r.stack| == |b.stack| - 1 && r.stack == b.stack[..|b.stack| - 1]
    ensures r.vertexData == b.vertexData && r.indexData == b.indexData
    ensures r.numVertices == b.numVertices && r.numIndices == b.numIndices
  {
    b.(stack := b.stack[..|b.stack| - 1])
  }

  /** `resetMatrixStack`: exactly one identity matrix. */
  function ResetMatrixStack(b: Builder): (r: Builder)
    ensures r.stack == [Identity]
    ensures r.vertexData == b.vertexData && r.indexData == b.indexData
    ensures r.numVertices == b.numVertices && r.numIndices == b.numIndices
  {
    b.(stack := [Identity])
  }

  /** Popping after pushing restores the builder. */
  lemma PushPopRestores(b: Builder)
    requires |b.stack| >= 1
    ensures PopMatrix(PushMatrix(b)) == b
  {
    assert (b.stack + [Top(b)])[..|b.stack|] == b.stack;
  }

  /** `getModelView` hands out a reference to the top matrix; what the
      caller can do through it is read the matrix or overwrite it. */
  function GetModelView(b: Builder): (r: Mat4)
    requires |b.stack| >= 1
    ensures r in b.stack && r == b.stack[|b.stack| - 1]
  {
    Top(b)
  }

  /** Writing through that reference replaces the top matrix and nothing
      else. */
  function SetModelView(b: Builder, m: Mat4): (r: Builder)
    requires |b.stack| >= 1
    ensures |r.stack| == |b.stack| && GetModelView(r) == m
    ensures r.stack[..|b.stack| - 1] == b.stack[..|b.stack| - 1]
    ensures r == b.(stack := r.stack)
  {
    b.(stack := b.stack[..|b.stack| - 1] + [m])
  }

  /** The usual pattern: push, change the copy on top, draw, pop. The
      points drawn in between use the new matrix and the pop restores
      the builder's stack. */
  lemma PushSetPopRestores(b: Builder, m: Mat4, p: Vec3)
    requires |b.stack| >= 1
    ensures var inner := SetModelView(PushMatrix(b), m);
            Position(inner, p).vertexData == b.vertexData + Vec3Scalars(TransformPoint(m, p)) &&
            PopMatrix(inner).stack == b.stack &&
            PopMatrix(Position(inner, p)).stack == b.stack
  {
    var inner := SetModelView(PushMatrix(b), m);
    assert inner.stack[..|b.stack|] == b.stack;
  }

  /** Two `index` calls in a row: the second batch is offset by the index
      count the first one left, whatever the vertex count. */
  lemma IndexOffsetsByIndexCount(b: Builder, n1: nat, a1: seq<int>, n2: nat, a2: seq<int>)
    requires |a1| >= ClampCount(n1) && |a2| >= ClampCount(n2)
    ensures var b2 := Index(Index(b, n1, a1), n2, a2);
            var base := |b.indexData| + ClampCount(n1);
            |b2.indexData| == base + ClampCount(n2) &&
            forall i :: 0 <= i < ClampCount(n2) ==>
              b2.indexData[base + i] == (a2[i] + b.numIndices + ClampCount(n1)) % U32
  {
  }
}
