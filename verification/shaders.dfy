/** The shader module's uniform bookkeeping: one 32-bit dirty word whose
    bits 0 to 3 stand for the projection matrix, the model-view matrix, the
    colour and the texture-unit table; the program currently bound; the
    lazily initialised texture-unit table; and, per `BasicShader`, its
    program id and whether it has been initialised. OpenGL itself is left
    out: compile and link results and the id `glCreateProgram` hands out are
    parameters, and `Use` reports which uniforms it would upload. */
module Shaders {
  import opened BitFlags

  /** The dirty bits of `U_PROJECTION_M_BIT` ... `U_TEXTURES_BIT`. */
  datatype Uniform = Projection | Modelview | Color | Textures

  function BitOf(u: Uniform): BitPos
  {
    match u
    case Projection => 0
    case Modelview => 1
    case Color => 2
    case Textures => 3
  }

  /** Size of `m_texUnits`. */
  const TexTableSize: nat := 32

  datatype Globals = Globals(
    projection: seq<real>, modelview: seq<real>, color: (real, real, real, real),
    texUnits: seq<int>, flags: Word, boundProgram: nat, maxTexUnits: int, shadersInit: bool)

  predicate GlobalsValid(g: Globals)
  {
    |g.texUnits| == TexTableSize
  }

  function ZeroTable(n: nat): (t: seq<int>)
    ensures |t| == n && forall i :: 0 <= i < n ==> t[i] == 0
  {
    if n == 0 then [] else ZeroTable(n - 1) + [0]
  }

  /** The file-scope statics before anything runs: every dirty bit set, no
      program bound, 32 texture units assumed, nothing initialised. The
      matrices start as the identity, given here by the caller. */
  function InitialGlobals(identity: seq<real>): (g: Globals)
    ensures GlobalsValid(g) && g.flags == AllSet && g.boundProgram == 0 && !g.shadersInit
  {
    Globals(identity, identity, (1.0, 1.0, 1.0, 1.0), ZeroTable(TexTableSize), AllSet, 0, 32, false)
  }

  /** `setProjectionMatrix`, `setModelviewMatrix`, `setColor`: store the
      value and mark its uniform dirty; no other bit moves. */
  function SetProjectionMatrix(g: Globals, m: seq<real>): (r: Globals)
    ensures r.projection == m && IsSet(r.flags, BitOf(Projection))
    ensures forall j: BitPos :: j != BitOf(Projection) ==> IsSet(r.flags, j) == IsSet(g.flags, j)
    ensures r == g.(projection := m, flags := r.flags)
  {
    g.(projection := m, flags := SetNthBit(g.flags, BitOf(Projection)))
  }

  function SetModelviewMatrix(g: Globals, m: seq<real>): (r: Globals)
    ensures r.modelview == m && IsSet(r.flags, BitOf(Modelview))
    ensures forall j: BitPos :: j != BitOf(Modelview) ==> IsSet(r.flags, j) == IsSet(g.flags, j)
    ensures r == g.(modelview := m, flags := r.flags)
  {
    g.(modelview := m, flags := SetNthBit(g.flags, BitOf(Modelview)))
  }

  function SetColor(g: Globals, c: (real, real, real, real)): (r: Globals)
    ensures r.color == c && IsSet(r.flags, BitOf(Color))
    ensures forall j: BitPos :: j != BitOf(Color) ==> IsSet(r.flags, j) == IsSet(g.flags, j)
    ensures r == g.(color := c, flags := r.flags)
  {
    g.(color := c, flags := SetNthBit(g.flags, BitOf(Color)))
  }

  /** `i_init`: the unit count the driver reports, capped at 32; the first
      that many table entries name their own unit; the rest stay. */
  function InitModule(g: Globals, driverMax: int): (r: Globals)
    requires GlobalsValid(g)
    ensures GlobalsValid(r) && r.shadersInit
    ensures r.maxTexUnits <= 32 && (driverMax <= 32 ==> r.maxTexUnits == driverMax)
    ensures forall i :: 0 <= i < TexTableSize ==>
      r.texUnits[i] == if i < r.maxTexUnits then i else g.texUnits[i]
    ensures r == g.(maxTexUnits := r.maxTexUnits, texUnits := r.texUnits, shadersInit := true)
  {
    var m := if driverMax <= 32 then driverMax else 32;
    var t := seq(TexTableSize, i requires 0 <= i < TexTableSize => if i < m then i else g.texUnits[i]);
    g.(maxTexUnits := m, texUnits := t, shadersInit := true)
  }

  datatype BasicShader = BasicShader(programId: nat, hasInit: bool)

  /** The shaders are static objects, so the id starts at zero. */
  const NewShader: BasicShader := BasicShader(0, false)

  /** `BasicShader::init`: `created` is what `glCreateProgram` returned.
      A failed vertex or fragment compile deletes the program and leaves the
      id at 0; a failed link is only logged and keeps the id. */
  function Init(s: BasicShader, created: nat, vertexOk: bool, fragmentOk: bool): (r: BasicShader)
    ensures r.hasInit
    ensures r.programId == if vertexOk && fragmentOk then created else 0
  {
    var ok := vertexOk && fragmentOk;
    BasicShader(if ok then created else 0, true)
  }

  /** The uniforms whose dirty bit is set, in upload order. */
  function Pending(flags: Word): (us: seq<Uniform>)
    ensures forall u :: u in us <==> IsSet(flags, BitOf(u))
  {
    (if IsSet(flags, 0) then [Projection] else []) +
    (if IsSet(flags, 1) then [Modelview] else []) +
    (if IsSet(flags, 2) then [Color] else []) +
    (if IsSet(flags, 3) then [Textures] else [])
  }

  /** Clears bits 0 to 3 and keeps the rest. */
  function ClearUniformBits(flags: Word): (r: Word)
    ensures forall u: Uniform :: !IsSet(r, BitOf(u))
    ensures forall j: BitPos :: j > 3 ==> IsSet(r, j) == IsSet(flags, j)
  {
    var r := flags & 0xFFFF_FFF0;
    forall j: BitPos
      ensures IsSet(r, j) == (j > 3 && IsSet(flags, j))
    {
      LowNibbleCleared(flags, j);
    }
    r
  }

  lemma LowNibbleCleared(w: Word, j: BitPos)
    ensures IsSet(w & 0xFFFF_FFF0, j) == (j > 3 && IsSet(w, j))
  {
  }

  /** What the driver says during the first `use`. */
  datatype Driver = Driver(maxTexUnits: int, created: nat, vertexOk: bool, fragmentOk: bool)

  /** `BasicShader::use`: initialises the module and the shader on first
      use; with a zero id it stops there; binding a different program marks
      every uniform dirty; then each dirty uniform among the four is
      uploaded and its bit cleared. */
  function Use(g: Globals, s: BasicShader, d: Driver): (r: (Globals, BasicShader, seq<Uniform>))
    requires GlobalsValid(g)
    ensures GlobalsValid(r.0) && r.0.shadersInit && r.1.hasInit
    ensures s.hasInit ==> r.1 == s
    ensures r.1.programId == 0 ==>
      r.2 == [] && r.0.flags == g.flags && r.0.boundProgram == g.boundProgram
    ensures r.1.programId != 0 ==>
      r.0.boundProgram == r.1.programId &&
      (forall u: Uniform :: !IsSet(r.0.flags, BitOf(u))) &&
      (g.boundProgram != r.1.programId ==> r.2 == [Projection, Modelview, Color, Textures]) &&
      (g.boundProgram == r.1.programId ==> forall u :: u in r.2 <==> IsSet(g.flags, BitOf(u)))
  {
    var g1 := if g.shadersInit then g else InitModule(g, d.maxTexUnits);
    var s1 := if s.hasInit then s else Init(s, d.created, d.vertexOk, d.fragmentOk);
    if s1.programId == 0 then
      (g1, s1, [])
    else
      var g2 := if g1.boundProgram != s1.programId then g1.(boundProgram := s1.programId, flags := AllSet) else g1;
      (g2.(flags := ClearUniformBits(g2.flags)), s1, Pending(g2.flags))
  }

  /** Using the same shader twice in a row uploads nothing the second time;
      after a colour change it uploads the colour alone. */
  lemma UseUploadsOnlyWhatChanged(g: Globals, s: BasicShader, d: Driver, c: (real, real, real, real))
    requires GlobalsValid(g)
    ensures var (g1, s1, _) := Use(g, s, d);
            Use(g1, s1, d).2 == [] &&
            (s1.programId != 0 ==> Use(SetColor(g1, c), s1, d).2 == [Color])
  {
    var (g1, s1, _) := Use(g, s, d);
    if s1.programId != 0 {
      var f := SetColor(g1, c).flags;
      assert IsSet(f, 2);
      assert !IsSet(f, 0) && !IsSet(f, 1) && !IsSet(f, 3) by {
        assert !IsSet(g1.flags, BitOf(Projection));
        assert !IsSet(g1.flags, BitOf(Modelview));
        assert !IsSet(g1.flags, BitOf(Textures));
      }
    }
  }
}
