/** EMFontRenderer: measures and emits text set in a bitmap font. Strings
    are byte sequences; `genString` decodes them as UTF-8 and emits one
    textured quad per code point below 256 into a mesh builder. The decoder
    is modelled as written (`DecodeUTF8`, whose four-byte lead mask is
    `& 8`) and corrected (`DecodeUTF8Fixed`, `& 7`). `GenString` emits
    through the decoder as written; `GenStringFixed` is the same loop
    through the corrected one. */
module FontRenderer {
  import opened Common
  import MB = MeshBuilder

  datatype Glyph = Glyph(
    x: int, y: int, width: int, height: int,
    xOffset: int, yOffset: int, xAdvance: int,
    uvLeft: real, uvTop: real, uvRight: real, uvBottom: real)

  /** The parts of a font the renderer reads: its height, its horizontal
      padding and the glyph table, indexed by code point. */
  datatype Font = Font(fontHeight: int, lineHeight: int, leftPadding: int, rightPadding: int, glyphs: seq<Glyph>)

  datatype Renderer = Renderer(font: Font, textSize: real, scale: real, texUnit: int)

  datatype FontError =
    | GlyphOutOfTable  // a glyph is read outside the table
    | Stalls           // `genString` makes no progress and never returns
    | ReadsPastEnd     // a multi-byte sequence runs past the string's length

  /** `setTextSize`: the size is raised to at least 0.1 and the scale is
      the size over the font's height. */
  function SetTextSize(r: Renderer, size: real): (r': Renderer)
    requires r.font.fontHeight > 0
    ensures r'.textSize >= 0.1 && r'.scale * r.font.fontHeight as real == r'.textSize
    ensures size >= 0.1 ==> r'.textSize == size
    ensures size < 0.1 ==> r'.textSize == 0.1
    ensures r'.font == r.font && r'.texUnit == r.texUnit
  {
    var s := MaxReal(0.1, size);
    r.(textSize := s, scale := s / r.font.fontHeight as real)
  }

  /** The constructor: text size 16 on texture unit 0. */
  function NewRenderer(f: Font): (r: Renderer)
    requires f.fontHeight > 0
    ensures r.font == f && r.textSize == 16.0 && r.scale * f.fontHeight as real == 16.0 && r.texUnit == 0
  {
    SetTextSize(Renderer(f, f.fontHeight as real, 1.0, 0), 16.0)
  }

  // ---------------------------------------------------------------------
  // String width
  // ---------------------------------------------------------------------

  /** A byte read through a (signed) `char`. */
  function SignedChar(b: Byte): (c: int)
    ensures -128 <= c < 128 && (b < 128 <==> c == b)
  {
    if b >= 128 then b - 256 else b
  }

  /** The integer cursor of `getStringWidth`: for every byte, the glyph's
      advance less the left padding less one. */
  function Cursor(f: Font, s: seq<Byte>): (r: Result<int, FontError>)
    ensures s == [] ==> r == Ok(0)
    ensures r.Err? <==> exists k :: 0 <= k < |s| && !(0 <= SignedChar(s[k]) < |f.glyphs|)
    decreases |s|
  {
    if s == [] then Ok(0)
    else
      var c := SignedChar(s[0]);
      if !(0 <= c < |f.glyphs|) then Err(GlyphOutOfTable)
      else
        var rest := Cursor(f, s[1..]);
        assert forall k :: 1 <= k < |s| ==> s[k] == s[1..][k - 1];
        if rest.Err? then rest
        else Ok(f.glyphs[c].xAdvance - f.leftPadding - 1 + rest.value)
  }

  /** `getStringWidth`: the cursor times the scale. */
  function GetStringWidth(r: Renderer, s: seq<Byte>): (w: Result<real, FontError>)
    ensures s == [] ==> w == Ok(0.0)
    ensures w.Err? <==> Cursor(r.font, s).Err?
    ensures w.Ok? ==> w.value == Cursor(r.font, s).value as real * r.scale
  {
    var c := Cursor(r.font, s);
    if c.Err? then Err(c.error) else Ok(c.value as real * r.scale)
  }

  lemma {:induction false} CursorAppend(f: Font, s1: seq<Byte>, s2: seq<Byte>)
    ensures Cursor(f, s1 + s2).Err? <==> Cursor(f, s1).Err? || Cursor(f, s2).Err?
    ensures Cursor(f, s1).Ok? && Cursor(f, s2).Ok? ==>
      Cursor(f, s1 + s2).value == Cursor(f, s1).value + Cursor(f, s2).value
    decreases |s1|
  {
    if s1 == [] {
      assert s1 + s2 == s2;
    } else {
      assert (s1 + s2)[1..] == s1[1..] + s2;
      CursorAppend(f, s1[1..], s2);
    }
  }

  /** The width of a concatenation is the sum of the widths, and it fails
      exactly when one part does. */
  lemma StringWidthAdditive(r: Renderer, s1: seq<Byte>, s2: seq<Byte>)
    ensures GetStringWidth(r, s1 + s2).Err? <==> GetStringWidth(r, s1).Err? || GetStringWidth(r, s2).Err?
    ensures GetStringWidth(r, s1).Ok? && GetStringWidth(r, s2).Ok? ==>
      GetStringWidth(r, s1 + s2).value == GetStringWidth(r, s1).value + GetStringWidth(r, s2).value
  {
    CursorAppend(r.font, s1, s2);
  }

  // ---------------------------------------------------------------------
  // UTF-8
  // ---------------------------------------------------------------------

  /** The sequence length a lead byte announces (the `& 224`, `& 240` and
      `& 248` tests), or 0 for a continuation byte or 0xF8 and above. */
  function LeadWidth(b0: Byte): (w: nat)
    ensures w <= 4
    ensures w == 1 <==> b0 < 0x80
    ensures w == 2 <==> 0xC0 <= b0 < 0xE0
    ensures w == 3 <==> 0xE0 <= b0 < 0xF0
    ensures w == 4 <==> 0xF0 <= b0 < 0xF8
  {
    if b0 < 128 then 1
    else if (b0 / 32) % 8 == 6 then 2
    else if (b0 / 16) % 16 == 14 then 3
    else if (b0 / 8) % 32 == 30 then 4
    else 0
  }

  /** What `*bytesRead` holds after the lead test: the lead's width, or
      whatever the caller left in it when the byte is not a lead. */
  function BytesRead(b0: Byte, prior: int): int
  {
    if LeadWidth(b0) != 0 then LeadWidth(b0) else prior
  }

  /** How many bytes the decoder reads. */
  function ReadWidth(b0: Byte, prior: int): (w: nat)
    ensures w >= 1
  {
    var n := BytesRead(b0, prior);
    if 2 <= n <= 4 then n else 1
  }

  /** The low `k` bits of a byte, `b & (2^k - 1)`. */
  function Low(b: Byte, m: nat): (r: nat)
    requires m >= 1
    ensures r < m
  {
    b % m
  }

  /** The two-byte case: five bits of the lead, six of the next byte. */
  function Decode2(b0: Byte, b1: Byte): (u: nat)
    ensures u < 0x800
  {
    Low(b0, 32) * 64 + Low(b1, 64)
  }

  /** The three-byte case: four bits of the lead, six of each next byte. */
  function Decode3(b0: Byte, b1: Byte, b2: Byte): (u: nat)
    ensures u < 0x10000
  {
    Low(b0, 16) * 4096 + Low(b1, 64) * 64 + Low(b2, 64)
  }

  /** The four-byte case as written: bit 3 of the lead shifted by 18, then
      six bits of each next byte. */
  function Decode4(b0: Byte, b1: Byte, b2: Byte, b3: Byte): (u: nat)
    ensures u < 0x240000
    ensures 0xF0 <= b0 < 0xF8 ==> u < 0x40000
  {
    Bit3(b0) * 0x40000 + Low(b1, 64) * 4096 + Low(b2, 64) * 64 + Low(b3, 64)
  }

  /** `getUnicodeFromUTF8`: the code point and the value of `*bytesRead`.
      Bit fields are combined with `+`, which equals `|` because they do
      not overlap. The four-byte case masks the lead with 8 (bit 3) where
      7 was evidently meant, and shifts it by 18. */
  function DecodeUTF8(s: seq<Byte>, prior: int): (r: (int, int))
    requires |s| >= 1 && |s| >= ReadWidth(s[0], prior)
    ensures r.1 == BytesRead(s[0], prior)
    ensures s[0] < 0x80 ==> r == (s[0], 1)
    ensures LeadWidth(s[0]) == 0 && !(2 <= prior <= 4) ==> r == (0, prior)
    ensures 0 <= r.0
    ensures LeadWidth(s[0]) == 4 ==> r.0 < 0x40000
  {
    if s[0] < 128 then (s[0], 1)
    else
      var n := BytesRead(s[0], prior);
      var u :=
        if n == 2 then Decode2(s[0], s[1])
        else if n == 3 then Decode3(s[0], s[1], s[2])
        else if n == 4 then Decode4(s[0], s[1], s[2], s[3])
        else 0;
      (u, n)
  }

  /** `b & 8`. */
  function Bit3(b: Byte): (r: nat)
    ensures r == 0 || r == 8
    ensures 0xF0 <= b < 0xF8 ==> r == 0
  {
    ((b / 8) % 2) * 8
  }

  /** The UTF-8 encoding of a code point, section 3 of RFC 3629. */
  function EncodeUTF8(cp: int): (s: seq<Byte>)
    requires 0 <= cp < 0x110000
    ensures 1 <= |s| <= 4
    ensures |s| == 1 <==> cp < 0x80
    ensures |s| == 2 <==> 0x80 <= cp < 0x800
    ensures |s| == 3 <==> 0x800 <= cp < 0x10000
  {
    if cp < 0x80 then [cp]
    else if cp < 0x800 then [0xC0 + cp / 64, 0x80 + cp % 64]
    else if cp < 0x10000 then [0xE0 + cp / 4096, 0x80 + (cp / 64) % 64, 0x80 + cp % 64]
    else [0xF0 + cp / 0x40000, 0x80 + (cp / 4096) % 64, 0x80 + (cp / 64) % 64, 0x80 + cp % 64]
  }

  /** A number in base 64: its three low digits and the rest. */
  lemma Base64Digits(cp: int)
    requires 0 <= cp
    ensures cp == 0x40000 * (cp / 0x40000) + 4096 * ((cp / 4096) % 64) + 64 * ((cp / 64) % 64) + cp % 64
    ensures cp % 0x40000 == 4096 * ((cp / 4096) % 64) + 64 * ((cp / 64) % 64) + cp % 64
    ensures cp == 4096 * (cp / 4096) + 64 * ((cp / 64) % 64) + cp % 64
  {
    var q1, r1 := cp / 64, cp % 64;
    var q2, r2 := q1 / 64, q1 % 64;
    var q3, r3 := q2 / 64, q2 % 64;
    assert cp == 0x40000 * q3 + (4096 * r3 + 64 * r2 + r1);
    ModUnique(cp, 4096, q2, 64 * r2 + r1);
    ModUnique(cp, 0x40000, q3, 4096 * r3 + 64 * r2 + r1);
  }

  /** A byte `tag + d` with `d` below `m` and `tag` a multiple of `m`
      keeps `d` in its low bits. */
  lemma LowOfTagged(tag: int, d: int, m: nat)
    requires m >= 1 && 0 <= d < m && tag >= 0 && tag % m == 0 && 0 <= tag + d < 0x100
    ensures Low(tag + d, m) == d
  {
    ModUnique(tag + d, m, tag / m, d);
  }

  lemma DecodeEncode2(cp: int)
    requires 0x80 <= cp < 0x800
    ensures DecodeUTF8(EncodeUTF8(cp), 0) == (cp, 2)
  {
    var s := EncodeUTF8(cp);
    LowOfTagged(0xC0, cp / 64, 32);
    LowOfTagged(0x80, cp % 64, 64);
  }

  lemma DecodeEncode3(cp: int)
    requires 0x800 <= cp < 0x10000
    ensures DecodeUTF8(EncodeUTF8(cp), 0) == (cp, 3)
  {
    var s := EncodeUTF8(cp);
    LowOfTagged(0xE0, cp / 4096, 16);
    LowOfTagged(0x80, (cp / 64) % 64, 64);
    LowOfTagged(0x80, cp % 64, 64);
    Base64Digits(cp);
  }

  lemma DecodeEncode4(cp: int)
    requires 0x10000 <= cp < 0x110000
    ensures DecodeUTF8(EncodeUTF8(cp), 0) == (cp % 0x40000, 4)
  {
    var s := EncodeUTF8(cp);
    LowOfTagged(0x80, (cp / 4096) % 64, 64);
    LowOfTagged(0x80, (cp / 64) % 64, 64);
    LowOfTagged(0x80, cp % 64, 64);
    Base64Digits(cp);
  }

  /** Decoding an encoded code point reads exactly its encoding and gives
      the code point back for the one-, two- and three-byte forms; the
      four-byte form loses the top three bits, so code points from
      0x40000 on come back wrong. */
  lemma DecodeEncode(cp: int)
    requires 0 <= cp < 0x110000
    ensures |EncodeUTF8(cp)| >= ReadWidth(EncodeUTF8(cp)[0], 0)
    ensures DecodeUTF8(EncodeUTF8(cp), 0).1 == |EncodeUTF8(cp)|
    ensures cp < 0x10000 ==> DecodeUTF8(EncodeUTF8(cp), 0).0 == cp
    ensures cp >= 0x10000 ==> DecodeUTF8(EncodeUTF8(cp), 0).0 == cp % 0x40000
    ensures DecodeUTF8(EncodeUTF8(cp), 0).0 == cp <==> cp < 0x40000
  {
    if cp >= 0x10000 {
      DecodeEncode4(cp);
      if cp < 0x40000 {
        ModUnique(cp, 0x40000, 0, cp);
      }
    } else if cp >= 0x800 {
      DecodeEncode3(cp);
    } else if cp >= 0x80 {
      DecodeEncode2(cp);
    }
  }

  /** The four-byte case as evidently intended: the low three bits of the
      lead (`& 7`), shifted by 18. */
  function Decode4Fixed(b0: Byte, b1: Byte, b2: Byte, b3: Byte): (u: nat)
    ensures u < 0x200000
  {
    Low(b0, 8) * 0x40000 + Low(b1, 64) * 4096 + Low(b2, 64) * 64 + Low(b3, 64)
  }

  /** The decoder with the four-byte mask corrected; every other case is
      the decoder as written. */
  function DecodeUTF8Fixed(s: seq<Byte>, prior: int): (r: (int, int))
    requires |s| >= 1 && |s| >= ReadWidth(s[0], prior)
    ensures r.1 == BytesRead(s[0], prior) && 0 <= r.0
    ensures BytesRead(s[0], prior) != 4 || s[0] < 0x80 ==> r == DecodeUTF8(s, prior)
  {
    if s[0] < 128 then (s[0], 1)
    else
      var n := BytesRead(s[0], prior);
      if n == 4 then (Decode4Fixed(s[0], s[1], s[2], s[3]), 4) else DecodeUTF8(s, prior)
  }

  /** The corrected decoder reads every encoded code point back, with the
      length of its encoding. */
  lemma DecodeEncodeFixed(cp: int)
    requires 0 <= cp < 0x110000
    ensures |EncodeUTF8(cp)| >= ReadWidth(EncodeUTF8(cp)[0], 0)
    ensures DecodeUTF8Fixed(EncodeUTF8(cp), 0) == (cp, |EncodeUTF8(cp)|)
  {
    DecodeEncode(cp);
    if cp >= 0x10000 {
      LowOfTagged(0xF0, cp / 0x40000, 8);
      LowOfTagged(0x80, (cp / 4096) % 64, 64);
      LowOfTagged(0x80, (cp / 64) % 64, 64);
      LowOfTagged(0x80, cp % 64, 64);
      Base64Digits(cp);
    }
  }

  /** U+40000 is encoded F1 80 80 80; the decoder as written reads it as
      0, the corrected one as U+40000. */
  lemma FourByteLeadBitsLost()
    ensures EncodeUTF8(0x40000) == [0xF1, 0x80, 0x80, 0x80]
    ensures DecodeUTF8([0xF1, 0x80, 0x80, 0x80], 0) == (0, 4)
    ensures DecodeUTF8Fixed([0xF1, 0x80, 0x80, 0x80], 0) == (0x40000, 4)
  {
  }

  /** Continuation bytes are not checked: only their low six bits count. */
  lemma ContinuationTagIgnored(b0: Byte, b1: Byte, c: Byte)
    requires 0xC0 <= b0 < 0xE0
    ensures DecodeUTF8([b0, b1], 0).0 == DecodeUTF8([b0, 0x80 + b1 % 64], 0).0
    ensures DecodeUTF8([b0, c], 0) == DecodeUTF8([b0, (c + 64) % 256], 0)
  {
    assert LeadWidth(b0) == 2;
    LowOfTagged(0x80, b1 % 64, 64);
    assert DecodeUTF8([b0, b1], 0).0 == Decode2(b0, b1);
    assert DecodeUTF8([b0, 0x80 + b1 % 64], 0).0 == Decode2(b0, 0x80 + b1 % 64);
    var c2: Byte := (c + 64) % 256;
    if c < 192 {
      ModUnique(c2, 64, c / 64 + 1, c % 64);
    } else {
      ModUnique(c2, 64, c / 64 - 3, c % 64);
    }
    assert Low(c2, 64) == Low(c, 64);
    assert DecodeUTF8([b0, c], 0) == (Decode2(b0, c), 2);
    assert DecodeUTF8([b0, c2], 0) == (Decode2(b0, c2), 2);
  }

  // ---------------------------------------------------------------------
  // Emitting text
  // ---------------------------------------------------------------------

  /** The vertex format the text quads are written in: a float position,
      float texture coordinates, a float colour and an unsigned integer texture unit. */
  const TextFormat: seq<MB.Attribute> := [
    MB.Attribute(MB.Float, 3, MB.Pos),
    MB.Attribute(MB.Float, 2, MB.Uv),
    MB.Attribute(MB.Float, 4, MB.Color),
    MB.Attribute(MB.UInt, 1, MB.TexId)]

  lemma TextFormatFacts()
    ensures MB.FlatKinds(TextFormat) == [MB.Float, MB.Float, MB.Float, MB.Float, MB.Float, MB.Float, MB.Float, MB.Float, MB.Float, MB.UInt]
    ensures MB.VertexNumBytes(TextFormat) == 40
    ensures MB.PosSlot(TextFormat) == Some((0, TextFormat[0]))
  {
    var f1 := TextFormat[..1];
    var f2 := TextFormat[..2];
    var f3 := TextFormat[..3];
    assert TextFormat[..3] == f3 && f3[..2] == f2 && f2[..1] == f1 && f1[..0] == [];
    assert MB.FlatKinds(f1) == [MB.Float, MB.Float, MB.Float];
    assert MB.FlatKinds(f2) == [MB.Float, MB.Float, MB.Float, MB.Float, MB.Float];
    assert MB.FlatKinds(f3) == [MB.Float, MB.Float, MB.Float, MB.Float, MB.Float, MB.Float, MB.Float, MB.Float, MB.Float];
    assert MB.VertexNumBytes(f1) == 12;
    assert MB.VertexNumBytes(f2) == 20;
    assert MB.VertexNumBytes(f3) == 36;
    assert MB.PosSlot(f1) == Some((0, TextFormat[0]));
    assert MB.PosSlot(f2) == Some((0, TextFormat[0]));
    assert MB.PosSlot(f3) == Some((0, TextFormat[0]));
  }

  /** A builder `genChar` can write into. */
  predicate TextReady(b: MB.Builder)
  {
    b.format == TextFormat && |b.stack| >= 1
  }

  /** `getVec4Color`: the channels of 0xAARRGGBB, each over 255, in the
      order red, green, blue, alpha. */
  function ColorOf(c: Uint32): (rgba: (real, real, real, real))
    ensures 0.0 <= rgba.0 <= 1.0 && 0.0 <= rgba.1 <= 1.0 && 0.0 <= rgba.2 <= 1.0 && 0.0 <= rgba.3 <= 1.0
  {
    (((c / 0x10000) % 256) as real / 255.0, ((c / 0x100) % 256) as real / 255.0,
     (c % 256) as real / 255.0, ((c / 0x1000000) % 256) as real / 255.0)
  }

  /** The colour word 0xAARRGGBB made of four channel bytes. */
  function PackColor(a: Byte, red: Byte, green: Byte, blue: Byte): (c: Uint32)
  {
    ((a * 0x100 + red) * 0x100 + green) * 0x100 + blue
  }

  /** Every colour word is the packing of its four bytes. */
  lemma PackColorOnto(c: Uint32)
    ensures c == PackColor((c / 0x1000000) % 256, (c / 0x10000) % 256, (c / 0x100) % 256, c % 256)
  {
    var q1, q2, q3 := c / 0x100, c / 0x10000, c / 0x1000000;
    assert q2 == q1 / 0x100 && q3 == q2 / 0x100;
    assert c == q1 * 0x100 + c % 256;
    assert q1 == q2 * 0x100 + q1 % 256;
    assert q2 == q3 * 0x100 + q2 % 256;
    assert q3 < 256;
  }

  /** Unpacking reads each byte back into its channel: red from bits
      16-23, green from 8-15, blue from 0-7 and alpha from 24-31. */
  lemma {:induction false} ColorOfPacked(a: Byte, red: Byte, green: Byte, blue: Byte)
    ensures ColorOf(PackColor(a, red, green, blue))
         == (red as real / 255.0, green as real / 255.0, blue as real / 255.0, a as real / 255.0)
  {
    var c := PackColor(a, red, green, blue);
    ModUnique(c, 0x100, (a * 0x100 + red) * 0x100 + green, blue);
    ModUnique(c / 0x100, 0x100, a * 0x100 + red, green);
    ModUnique((c / 0x100) / 0x100, 0x100, a, red);
    ModUnique(a, 0x100, 0, a);
    assert c / 0x10000 == (c / 0x100) / 0x100;
    assert c / 0x1000000 == ((c / 0x100) / 0x100) / 0x100;
  }

  /** Nine floating values then one integer: what the text format reads. */
  predicate TextArgs(args: seq<MB.Arg>)
  {
    |args| == 10 && args[9].IntArg? && forall k :: 0 <= k < 9 ==> args[k].RealArg?
  }

  lemma TextArgsFit(args: seq<MB.Arg>)
    requires TextArgs(args)
    ensures MB.ArgsFit(TextFormat, args)
  {
    TextFormatFacts();
  }

  /** The ten values one `vertex` call of `genChar` passes. */
  function QuadCorner(px: real, py: real, u: real, v: real, col: (real, real, real, real), texUnit: int): (args: seq<MB.Arg>)
    ensures TextArgs(args)
  {
    [MB.RealArg(px), MB.RealArg(py), MB.RealArg(0.0), MB.RealArg(u), MB.RealArg(v),
     MB.RealArg(col.0), MB.RealArg(col.1), MB.RealArg(col.2), MB.RealArg(col.3), MB.IntArg(texUnit)]
  }

  /** The six indices of a glyph quad: two triangles over its corners. */
  const QuadIndices: seq<int> := [0, 1, 2, 0, 2, 3]

  /** Appending one text vertex. */
  function TextVertex(b: MB.Builder, args: seq<MB.Arg>): (r: MB.Builder)
    requires TextReady(b) && TextArgs(args)
    ensures TextReady(r) && r.numVertices == b.numVertices + 1
    ensures MB.VertexBytes(r) == MB.VertexBytes(b) + 40
    ensures r.indexData == b.indexData && r.numIndices == b.numIndices
  {
    TextFormatFacts();
    TextArgsFit(args);
    MB.Vertex(b, args)
  }

  /** The four corners of a glyph quad, in the order `genChar` emits
      them: bottom left, bottom right, top right, top left, with the top
      edge sheared by `italics`. */
  function QuadCorners(r: Renderer, g: Glyph, x: real, y: real, italics: real, color: Uint32): (cs: seq<seq<MB.Arg>>)
    ensures |cs| == 4 && forall k :: 0 <= k < 4 ==> TextArgs(cs[k])
  {
    var left := g.xOffset as real * r.scale + x;
    var right := (g.xOffset + g.width) as real * r.scale + x;
    var top := g.yOffset as real * r.scale + y;
    var bottom := (g.yOffset + g.height) as real * r.scale + y;
    var col := ColorOf(color);
    [QuadCorner(left - italics, bottom, g.uvLeft, g.uvBottom, col, r.texUnit),
     QuadCorner(right - italics, bottom, g.uvRight, g.uvBottom, col, r.texUnit),
     QuadCorner(right + italics, top, g.uvRight, g.uvTop, col, r.texUnit),
     QuadCorner(left + italics, top, g.uvLeft, g.uvTop, col, r.texUnit)]
  }

  /** One glyph quad: its six indices, then its four corners. */
  function GlyphQuad(b: MB.Builder, cs: seq<seq<MB.Arg>>): (b': MB.Builder)
    requires TextReady(b) && |cs| == 4 && forall k :: 0 <= k < 4 ==> TextArgs(cs[k])
    ensures TextReady(b')
    ensures b'.numVertices == b.numVertices + 4 && b'.numIndices == b.numIndices + 6
    ensures b'.indexData == b.indexData + MB.OffsetIndices(QuadIndices, b.numIndices)
    ensures MB.VertexBytes(b') == MB.VertexBytes(b) + 160
  {
    var b1 := MB.Index(b, 6, QuadIndices);
    assert QuadIndices[..MB.ClampCount(6)] == QuadIndices;
    TextVertices(b1, cs)
  }

  /** The corners' `vertex` calls, in order. */
  function TextVertices(b: MB.Builder, cs: seq<seq<MB.Arg>>): (b': MB.Builder)
    requires TextReady(b) && forall k :: 0 <= k < |cs| ==> TextArgs(cs[k])
    ensures TextReady(b') && b'.numVertices == b.numVertices + |cs|
    ensures MB.VertexBytes(b') == MB.VertexBytes(b) + 40 * |cs|
    ensures b'.indexData == b.indexData && b'.numIndices == b.numIndices
    decreases |cs|
  {
    if cs == [] then b else TextVertices(TextVertex(b, cs[0]), cs[1..])
  }

  /** `genChar`: nothing for code points from 256 on; otherwise one
      `index(6, ...)` call and four vertices, the corners of the glyph's
      box scaled and placed at (x, y). */
  function GenChar(r: Renderer, b: MB.Builder, unicode: int, x: real, y: real, italics: real, color: Uint32): (b': MB.Builder)
    requires TextReady(b) && 0 <= unicode && (unicode < 256 ==> unicode < |r.font.glyphs|)
    ensures TextReady(b')
    ensures unicode >= 256 ==> b' == b
    ensures unicode < 256 ==>
      b'.numVertices == b.numVertices + 4 && b'.numIndices == b.numIndices + 6 &&
      b'.indexData == b.indexData + MB.OffsetIndices(QuadIndices, b.numIndices) &&
      MB.VertexBytes(b') == MB.VertexBytes(b) + 160
  {
    if 256 <= unicode then b
    else GlyphQuad(b, QuadCorners(r, r.font.glyphs[unicode], x, y, italics, color))
  }

  /** The pen advance of one glyph in `genString`, unscaled. */
  function Advance(f: Font, unicode: int): int
    requires 0 <= unicode < |f.glyphs|
  {
    f.glyphs[unicode].xAdvance - f.leftPadding - f.rightPadding
  }

  /** Which four-byte lead mask a decoding uses: `& 8` as the source
      has it, or `& 7` as evidently meant. */
  datatype LeadMask = AsWritten | Corrected

  /** The decoder with the chosen four-byte lead mask. */
  function DecodeWith(m: LeadMask, s: seq<Byte>, prior: int): (r: (int, int))
    requires |s| >= 1 && |s| >= ReadWidth(s[0], prior)
    ensures r.1 == BytesRead(s[0], prior) && 0 <= r.0
  {
    if m == AsWritten then DecodeUTF8(s, prior) else DecodeUTF8Fixed(s, prior)
  }

  /** The decoder called at byte `i` with `*bytesRead` first set to 0:
      the code point and how far to move on, or the cut-off sequence. */
  function DecodeAt(m: LeadMask, s: seq<Byte>, i: nat): (res: Result<(int, nat), FontError>)
    requires i < |s|
    ensures res.Ok? ==> 0 <= res.value.0 && res.value.1 == LeadWidth(s[i]) && i + res.value.1 <= |s|
    ensures res.Ok? ==> res.value.0 == DecodeWith(m, s[i..], 0).0
    ensures res.Err? <==> i + ReadWidth(s[i], 0) > |s|
    ensures s[i] < 0x80 ==> res == Ok((s[i] as int, 1))
    ensures LeadWidth(s[i]) == 0 ==> res == Ok((0, 0))
  {
    if i + ReadWidth(s[i], 0) > |s| then Err(ReadsPastEnd)
    else
      assert s[i..][0] == s[i];
      var d := DecodeWith(m, s[i..], 0);
      Ok((d.0, LeadWidth(s[i])))
  }

  /** The pen after one glyph. */
  function PenAfter(r: Renderer, pen: real, unicode: int): real
    requires 0 <= unicode < |r.font.glyphs|
  {
    pen + ScaledAdvance(r, unicode)
  }

  /** One glyph's advance in screen units. */
  function ScaledAdvance(r: Renderer, unicode: int): real
    requires 0 <= unicode < |r.font.glyphs|
  {
    Advance(r.font, unicode) as real * r.scale
  }

  /** One turn of `genString`'s loop at byte `i`: the builder after the
      glyph, the pen after its advance and the next byte, or the reason the
      loop goes wrong there. */
  function Step(m: LeadMask, r: Renderer, b: MB.Builder, s: seq<Byte>, i: nat, pen: real, y: real, color: Uint32): (res: Result<(MB.Builder, real, nat), FontError>)
    requires TextReady(b) && i < |s|
    ensures res.Ok? ==> TextReady(res.value.0) && i < res.value.2 <= |s|
    ensures res.Ok? ==>
      var b' := res.value.0;
      b' == b ||
      (b'.numVertices == b.numVertices + 4 && b'.numIndices == b.numIndices + 6 &&
       MB.VertexBytes(b') == MB.VertexBytes(b) + 160)
    ensures s[i] < 128 && s[i] < |r.font.glyphs| ==>
      res.Ok? && res.value.2 == i + 1 && res.value.1 == PenAfter(r, pen, s[i])
    ensures LeadWidth(s[i]) == 0 && |r.font.glyphs| >= 1 ==> res == Err(Stalls)
  {
    var d := DecodeAt(m, s, i);
    if d.Err? then Err(d.error)
    else
      var (u, n) := d.value;
      if u >= |r.font.glyphs| then Err(GlyphOutOfTable)
      else if n == 0 then Err(Stalls)
      else Ok((GenChar(r, b, u, pen, y, 0.0, color), PenAfter(r, pen, u), i + n))
  }

  /** The loop of `genString` from byte `i` on, with the pen at `pen`. */
  function GenFrom(m: LeadMask, r: Renderer, b: MB.Builder, s: seq<Byte>, i: nat, pen: real, y: real, color: Uint32): (res: Result<(MB.Builder, real), FontError>)
    requires TextReady(b) && i <= |s|
    ensures res.Ok? ==> TextReady(res.value.0)
    ensures res.Ok? ==>
      var b' := res.value.0;
      b'.numVertices >= b.numVertices &&
      6 * (b'.numVertices - b.numVertices) == 4 * (b'.numIndices - b.numIndices) &&
      MB.VertexBytes(b') - MB.VertexBytes(b) == 40 * (b'.numVertices - b.numVertices)
    ensures i < |s| && LeadWidth(s[i]) == 0 && |r.font.glyphs| >= 1 ==> res == Err(Stalls)
    decreases |s| - i
  {
    if i == |s| then Ok((b, pen))
    else
      var st := Step(m, r, b, s, i, pen, y, color);
      if st.Err? then Err(st.error)
      else GenFrom(m, r, st.value.0, s, st.value.2, st.value.1, y, color)
  }

  /** Over ASCII bytes whose glyphs exist the loop always finishes, and
      the pen moves by the sum of the glyph advances. */
  lemma {:induction false} GenFromAscii(m: LeadMask, r: Renderer, b: MB.Builder, s: seq<Byte>, i: nat, pen: real, y: real, color: Uint32)
    requires TextReady(b) && i <= |s|
    requires forall k :: i <= k < |s| ==> s[k] < 128 && s[k] < |r.font.glyphs|
    ensures GenFrom(m, r, b, s, i, pen, y, color).Ok?
    ensures GenFrom(m, r, b, s, i, pen, y, color).value.1 == pen + AsciiAdvance(r, s[i..])
    decreases |s| - i
  {
    if i < |s| {
      var st := Step(m, r, b, s, i, pen, y, color);
      assert st.Ok? && st.value.2 == i + 1 && st.value.1 == PenAfter(r, pen, s[i]);
      var g := GenFrom(m, r, b, s, i, pen, y, color);
      var g2 := GenFrom(m, r, st.value.0, s, i + 1, st.value.1, y, color);
      assert g == g2;
      GenFromAscii(m, r, st.value.0, s, i + 1, st.value.1, y, color);
      AsciiAdvanceStep(r, s, i);
    }
  }

  /** Peeling the first byte off an ASCII tail. */
  lemma AsciiAdvanceStep(r: Renderer, s: seq<Byte>, i: nat)
    requires i < |s|
    ensures (forall k :: i <= k < |s| ==> s[k] < 128 && s[k] < |r.font.glyphs|) ==>
      AsciiAdvance(r, s[i..]) == ScaledAdvance(r, s[i]) + AsciiAdvance(r, s[i + 1..])
  {
    assert s[i..][1..] == s[i + 1..];
  }

  /** The pen advance `genString` makes over an ASCII string. */
  function AsciiAdvance(r: Renderer, s: seq<Byte>): real
    requires forall k :: 0 <= k < |s| ==> s[k] < |r.font.glyphs|
  {
    if s == [] then 0.0
    else ScaledAdvance(r, s[0]) + AsciiAdvance(r, s[1..])
  }

  /** The loop of `genString` over the whole string with the chosen
      decoder: the builder after all the quads and the final pen
      position, or why the source would misbehave: a code point outside
      the glyph table, a byte that is not a lead byte (the loop then never
      advances), or a multi-byte sequence cut off by the string's end. */
  function GenWith(m: LeadMask, r: Renderer, b: MB.Builder, s: seq<Byte>, x: real, y: real, color: Uint32): (res: Result<(MB.Builder, real), FontError>)
    requires TextReady(b)
    ensures res.Ok? ==> TextReady(res.value.0) && res.value.0.numVertices >= b.numVertices
    ensures (forall k :: 0 <= k < |s| ==> s[k] < 128 && s[k] < |r.font.glyphs|) ==>
      res.Ok? && res.value.1 == x + AsciiAdvance(r, s)
    ensures s != [] && LeadWidth(s[0]) == 0 && |r.font.glyphs| >= 1 ==> res == Err(Stalls)
  {
    assert s[0..] == s;
    if forall k :: 0 <= k < |s| ==> s[k] < 128 && s[k] < |r.font.glyphs| then
      GenFromAscii(m, r, b, s, 0, x, y, color);
      GenFrom(m, r, b, s, 0, x, y, color)
    else GenFrom(m, r, b, s, 0, x, y, color)
  }

  /** `genString` as written: it decodes with the `& 8` lead mask. */
  function GenString(r: Renderer, b: MB.Builder, s: seq<Byte>, x: real, y: real, color: Uint32): (res: Result<(MB.Builder, real), FontError>)
    requires TextReady(b)
    ensures res.Ok? ==> TextReady(res.value.0) && res.value.0.numVertices >= b.numVertices
    ensures (forall k :: 0 <= k < |s| ==> s[k] < 128 && s[k] < |r.font.glyphs|) ==>
      res.Ok? && res.value.1 == x + AsciiAdvance(r, s)
    ensures s != [] && LeadWidth(s[0]) == 0 && |r.font.glyphs| >= 1 ==> res == Err(Stalls)
  {
    GenWith(AsWritten, r, b, s, x, y, color)
  }

  /** `genString` with the four-byte lead mask corrected to `& 7`. */
  function GenStringFixed(r: Renderer, b: MB.Builder, s: seq<Byte>, x: real, y: real, color: Uint32): (res: Result<(MB.Builder, real), FontError>)
    requires TextReady(b)
    ensures res.Ok? ==> TextReady(res.value.0) && res.value.0.numVertices >= b.numVertices
    ensures (forall k :: 0 <= k < |s| ==> s[k] < 128 && s[k] < |r.font.glyphs|) ==>
      res.Ok? && res.value.1 == x + AsciiAdvance(r, s)
    ensures s != [] && LeadWidth(s[0]) == 0 && |r.font.glyphs| >= 1 ==> res == Err(Stalls)
  {
    GenWith(Corrected, r, b, s, x, y, color)
  }

  /** F1 80 81 81 encodes U+40041; as written it decodes to 0x41, the
      corrected decoder reads it back. */
  lemma FourByteReadsLowBits()
    ensures EncodeUTF8(0x40041) == [0xF1, 0x80, 0x81, 0x81]
    ensures DecodeAt(AsWritten, [0xF1, 0x80, 0x81, 0x81], 0) == Ok((0x41, 4))
    ensures DecodeAt(Corrected, [0xF1, 0x80, 0x81, 0x81], 0) == Ok((0x40041, 4))
  {
    var s: seq<Byte> := [0xF1, 0x80, 0x81, 0x81];
    assert s[0..] == s;
  }

  /** So, as written, `genString` draws an 'A' for U+40041 and moves on
      four bytes. */
  lemma FourByteDrawsWrongGlyph(r: Renderer, b: MB.Builder, x: real, y: real, color: Uint32)
    requires TextReady(b) && 0x41 < |r.font.glyphs|
    ensures GenString(r, b, [0xF1, 0x80, 0x81, 0x81], x, y, color)
         == Ok((GenChar(r, b, 0x41, x, y, 0.0, color), PenAfter(r, x, 0x41)))
  {
    var s: seq<Byte> := [0xF1, 0x80, 0x81, 0x81];
    FourByteReadsLowBits();
    var b1 := GenChar(r, b, 0x41, x, y, 0.0, color);
    var pen := PenAfter(r, x, 0x41);
    assert s[0] >= 128;
    assert Step(AsWritten, r, b, s, 0, x, y, color) == Ok((b1, pen, 4));
    assert GenFrom(AsWritten, r, b1, s, 4, pen, y, color) == Ok((b1, pen));
  }

  /** With the corrected decoder the same bytes name U+40041, which no
      glyph table of at most 0x40041 entries holds. */
  lemma FourByteFixedOutOfTable(r: Renderer, b: MB.Builder, x: real, y: real, color: Uint32)
    requires TextReady(b) && |r.font.glyphs| <= 0x40041
    ensures GenStringFixed(r, b, [0xF1, 0x80, 0x81, 0x81], x, y, color) == Err(GlyphOutOfTable)
  {
    var s: seq<Byte> := [0xF1, 0x80, 0x81, 0x81];
    FourByteReadsLowBits();
    assert s[0] >= 128;
    assert Step(Corrected, r, b, s, 0, x, y, color) == Err(GlyphOutOfTable);
    assert GenFrom(Corrected, r, b, s, 0, x, y, color) == Err(GlyphOutOfTable);
  }

  /** Over ASCII text, `genString` advances the pen by the string's width
      plus (1 - rightPadding) scaled units per character: the two agree
      only when the right padding is 1. */
  lemma {:induction false} PenAdvanceVersusWidth(r: Renderer, s: seq<Byte>)
    requires forall k :: 0 <= k < |s| ==> s[k] < 128 && s[k] < |r.font.glyphs|
    ensures GetStringWidth(r, s).Ok?
    ensures AsciiAdvance(r, s) == GetStringWidth(r, s).value + (|s| * (1 - r.font.rightPadding)) as real * r.scale
    decreases |s|
  {
    if s != [] {
      assert forall k :: 0 <= k < |s[1..]| ==> s[1..][k] == s[k + 1];
      PenAdvanceVersusWidth(r, s[1..]);
      var c := Cursor(r.font, s[1..]).value;
      var a := Advance(r.font, s[0]);
      var n := |s| - 1;
      var rp := r.font.rightPadding;
      assert Cursor(r.font, s).value == r.font.glyphs[s[0]].xAdvance - r.font.leftPadding - 1 + c;
      assert a == (r.font.glyphs[s[0]].xAdvance - r.font.leftPadding - 1) + (1 - rp);
      MulSucc(n, 1 - rp);
      DistributeScale(a, 1 - rp, c, n * (1 - rp), r.scale);
    }
  }

  lemma DistributeScale(a: int, d: int, c: int, e: int, k: real)
    ensures a as real * k + (c as real * k + e as real * k) == (a - d + c) as real * k + (d + e) as real * k
  {
  }

  /** Two glyphs drawn one after the other on a fresh builder: because
      `index` offsets by the index count, the second quad's indices are
      6..9 while only vertices 0..7 exist. */
  lemma SecondGlyphIndicesOverrun(r: Renderer, x: real, y: real, color: Uint32)
    requires |r.font.glyphs| >= 1
    ensures var b0 := MB.NewBuilder(TextFormat);
            var b2 := GenChar(r, GenChar(r, b0, 0, x, y, 0.0, color), 0, x, y, 0.0, color);
            b2.numVertices == 8 && |b2.indexData| == 12 && b2.indexData[11] == 9 && b2.indexData[11] >= b2.numVertices
  {
    var b0 := MB.NewBuilder(TextFormat);
    var b1 := GenChar(r, b0, 0, x, y, 0.0, color);
    assert b1.numIndices == 6 && b1.numVertices == 4 && |b1.indexData| == 6;
    var b2 := GenChar(r, b1, 0, x, y, 0.0, color);
    var tail := MB.OffsetIndices(QuadIndices, 6);
    assert QuadIndices[5] == 3;
    ModUnique(9, MB.U32, 0, 9);
    assert tail[5] == 9;
    assert b2.indexData == b1.indexData + tail;
  }
}
