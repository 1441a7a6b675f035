/** The reading half of the BMFont converter: the text of a `.fnt` file is
    cut into tokens, the header fields are read up to `chars count N`, and
    the `char` lines that follow become glyph records. Python's `next` on an
    exhausted stream, `int` on a malformed token and `glyphs[-1]` before any
    glyph are the error cases; each ends the script, and each is an `Err`
    here. */
module FontConverter {
  import opened Common

  // ----- Decimal integers, as `int()` reads them and `str()` writes them -----

  predicate IsDigit(c: char)
  {
    '0' <= c <= '9'
  }

  function DigitChar(d: nat): (c: char)
    requires d < 10
    ensures IsDigit(c) && (c as int) - ('0' as int) == d
  {
    ('0' as int + d) as char
  }

  /** The decimal digits of `n`, most significant first, without leading
      zeros. */
  function Digits(n: nat): (s: string)
    ensures |s| >= 1 && forall i :: 0 <= i < |s| ==> IsDigit(s[i])
    ensures n < 10 <==> |s| == 1
    decreases n
  {
    if n < 10 then [DigitChar(n)] else Digits(n / 10) + [DigitChar(n % 10)]
  }

  /** `str(n)`. */
  function ShowInt(n: int): (s: string)
    ensures |s| >= 1 && (IsDigit(s[0]) || s[0] == '-')
    ensures forall i :: 1 <= i < |s| ==> IsDigit(s[i])
  {
    if n < 0 then "-" + Digits(-n) else Digits(n)
  }

  predicate AllDigits(s: string)
  {
    forall i :: 0 <= i < |s| ==> IsDigit(s[i])
  }

  /** The value of a non-empty run of decimal digits. */
  function DigitsValue(s: string): (n: nat)
    requires |s| >= 1 && AllDigits(s)
    ensures |s| == 1 ==> n == (s[0] as int) - ('0' as int)
  {
    var last := (s[|s| - 1] as int) - ('0' as int);
    if |s| == 1 then last else DigitsValue(s[..|s| - 1]) * 10 + last
  }

  /** `int(token)`: an optional sign and at least one decimal digit. */
  function ParseInt(s: string): (r: Option<int>)
    ensures r.Some? <==> (|s| >= 1 && AllDigits(s)) ||
                         (|s| >= 2 && (s[0] == '-' || s[0] == '+') && AllDigits(s[1..]))
  {
    if |s| >= 1 && AllDigits(s) then Some(DigitsValue(s))
    else if |s| >= 2 && (s[0] == '-' || s[0] == '+') && AllDigits(s[1..]) then
      var v: int := DigitsValue(s[1..]);
      Some(if s[0] == '-' then -v else v)
    else None
  }

  lemma {:induction false} DigitsRoundTrip(n: nat)
    ensures DigitsValue(Digits(n)) == n
    decreases n
  {
    if n >= 10 {
      var s := Digits(n);
      assert s[..|s| - 1] == Digits(n / 10);
      DigitsRoundTrip(n / 10);
    }
  }

  /** What `str` writes, `int` reads back. */
  lemma ParseShowInt(n: int)
    ensures ParseInt(ShowInt(n)) == Some(n)
  {
    if n < 0 {
      var s := ShowInt(n);
      assert s[1..] == Digits(-n);
      assert !AllDigits(s) by { assert !IsDigit(s[0]); }
      DigitsRoundTrip(-n);
    } else {
      DigitsRoundTrip(n);
    }
  }

  // ----- Tokenizer -----

  /** The four `replace` calls, character by character: newlines, `=` and
      `,` become spaces and double quotes disappear. */
  function NormalizeChar(c: char): string
  {
    if c == '\n' || c == '=' || c == ',' then " "
    else if c == '"' then ""
    else [c]
  }

  function Normalize(text: string): (r: string)
    ensures forall c :: c in r ==> c !in "\n=,\""
    ensures |r| <= |text|
  {
    if text == [] then "" else NormalizeChar(text[0]) + Normalize(text[1..])
  }

  /** Normalizing text piece by piece is normalizing it whole, so the
      order in which the file's lines are cleaned does not matter. */
  lemma {:induction false} NormalizeAppend(a: string, b: string)
    ensures Normalize(a + b) == Normalize(a) + Normalize(b)
  {
    if a == [] {
      assert a + b == b;
    } else {
      assert (a + b)[0] == a[0] && (a + b)[1..] == a[1..] + b;
      NormalizeAppend(a[1..], b);
    }
  }

  /** Characters other than the four touched ones pass through unchanged. */
  lemma {:induction false} NormalizeKeepsPlainText(text: string)
    requires forall c :: c in text ==> c !in "\n=,\""
    ensures Normalize(text) == text
  {
    if text != [] {
      assert text[0] in text;
      assert forall c :: c in text[1..] ==> c in text;
      NormalizeKeepsPlainText(text[1..]);
    }
  }

  /** `str.split(" ")`: the pieces between single spaces, empty ones
      included. */
  function Split(s: string): (ts: seq<string>)
    ensures |ts| >= 1
    ensures forall i :: 0 <= i < |ts| ==> ' ' !in ts[i]
  {
    if s == [] then [""]
    else
      var rest := Split(s[1..]);
      if s[0] == ' ' then [""] + rest
      else [[s[0]] + rest[0]] + rest[1..]
  }

  /** `" ".join(ts)`. */
  function Join(ts: seq<string>): string
    requires |ts| >= 1
  {
    if |ts| == 1 then ts[0] else ts[0] + " " + Join(ts[1..])
  }

  /** Splitting loses nothing: joining the pieces gives the text back. */
  lemma {:induction false} JoinSplit(s: string)
    ensures Join(Split(s)) == s
  {
    if s != [] {
      var rest := Split(s[1..]);
      JoinSplit(s[1..]);
      if s[0] == ' ' {
        assert ([""] + rest)[1..] == rest;
      } else {
        var ts := Split(s);
        assert ts[1..] == rest[1..];
        if |rest| == 1 {
          assert ts == [[s[0]] + rest[0]];
        } else {
          assert Join(ts) == [s[0]] + rest[0] + " " + Join(rest[1..]);
        }
      }
    }
  }

  /** And the pieces of a joined list are that list, as long as no piece
      contains a space. */
  lemma {:induction false} SplitJoin(ts: seq<string>)
    requires |ts| >= 1 && forall i :: 0 <= i < |ts| ==> ' ' !in ts[i]
    ensures Split(Join(ts)) == ts
    decreases |ts|, |ts[0]|
  {
    if |ts| == 1 {
      SplitWord(ts[0]);
    } else if ts[0] == [] {
      var s := Join(ts);
      assert s == [' '] + Join(ts[1..]);
      assert s[1..] == Join(ts[1..]);
      SplitJoin(ts[1..]);
      assert [""] + ts[1..] == ts;
    } else {
      var s := Join(ts);
      var w := ts[0];
      var ts' := [w[1..]] + ts[1..];
      assert ' ' !in w[1..] by { assert forall c :: c in w[1..] ==> c in w; }
      assert forall i :: 1 <= i < |ts'| ==> ts'[i] == ts[i];
      assert ts'[1..] == ts[1..];
      assert s[0] == w[0] && w[0] != ' ' by { assert w[0] in w; }
      assert s[1..] == Join(ts') by {
        assert s == [w[0]] + (w[1..] + " " + Join(ts[1..]));
      }
      SplitJoin(ts');
      assert [w[0]] + w[1..] == w;
      assert [[w[0]] + w[1..]] + ts[1..] == ts;
    }
  }

  lemma {:induction false} SplitWord(w: string)
    requires ' ' !in w
    ensures Split(w) == [w]
  {
    if w != [] {
      assert ' ' !in w[1..] by { assert forall c :: c in w[1..] ==> c in w; }
      SplitWord(w[1..]);
      assert w[0] != ' ' by { assert w[0] in w; }
      assert [w[0]] + w[1..] == w;
    }
  }

  /** Two spaces in a row leave an empty token between them. */
  lemma DoubleSpaceGivesEmptyToken(a: string, b: string)
    requires ' ' !in a && ' ' !in b
    ensures Split(a + "  " + b) == [a, "", b]
  {
    assert [a, "", b][1..] == ["", b] && ["", b][1..] == [b];
    assert Join(["", b]) == " " + b;
    assert a + "  " + b == Join([a, "", b]);
    SplitJoin([a, "", b]);
  }

  /** The token stream of a `.fnt` file. */
  function Tokenize(text: string): (ts: seq<string>)
    ensures |ts| >= 1
    ensures forall i :: 0 <= i < |ts| ==> forall c :: c in ts[i] ==> c !in " \n=,\""
  {
    var n := Normalize(text);
    var ts := Split(n);
    forall i | 0 <= i < |ts|
      ensures forall c :: c in ts[i] ==> c !in " \n=,\""
    {
      JoinSplit(n);
      TokenIsPart(ts, i);
    }
    ts
  }

  /** Every character of a token is a character of the joined text. */
  lemma {:induction false} TokenIsPart(ts: seq<string>, i: int)
    requires |ts| >= 1 && 0 <= i < |ts|
    ensures forall c :: c in ts[i] ==> c in Join(ts)
  {
    if i > 0 {
      TokenIsPart(ts[1..], i - 1);
      assert ts[1..][i - 1] == ts[i];
    }
  }

  // ----- Header -----

  /** The module-level `fnt_*` variables. `size` is stored as the raw token,
      as the script never converts it; its initial `0` prints as "0". */
  datatype Header = Header(
    name: string, size: string, lineHeight: int,
    padTop: int, padRight: int, padBottom: int, padLeft: int,
    imgPath: string, numGlyphs: int)

  const InitialHeader: Header := Header("", "0", 0, 0, 0, 0, 0, "", 0)

  /** How the script dies: `next` past the end, `int` on a non-number, or a
      glyph field before any `char id`. */
  datatype ParseError = Truncated | NotAnInt(token: string) | NoGlyph

  /** `next(stream)`. */
  function Next(ts: seq<string>): (r: Result<(string, seq<string>), ParseError>)
    ensures ts == [] <==> r == Err(Truncated)
    ensures r.Ok? ==> [r.value.0] + r.value.1 == ts
  {
    if ts == [] then Err(Truncated) else Ok((ts[0], ts[1..]))
  }

  /** `int(next(stream))`. */
  function NextInt(ts: seq<string>): (r: Result<(int, seq<string>), ParseError>)
    ensures ts == [] ==> r == Err(Truncated)
    ensures ts != [] ==> (ParseInt(ts[0]).Some? <==> r.Ok?)
    ensures r.Ok? ==> Some(r.value.0) == ParseInt(ts[0]) && r.value.1 == ts[1..]
  {
    if ts == [] then Err(Truncated)
    else match ParseInt(ts[0])
      case None => Err(NotAnInt(ts[0]))
      case Some(v) => Ok((v, ts[1..]))
  }

  predicate IsSuffix(rest: seq<string>, ts: seq<string>)
  {
    |rest| <= |ts| && rest == ts[|ts| - |rest|..]
  }

  lemma SuffixTrans(a: seq<string>, b: seq<string>, c: seq<string>)
    requires IsSuffix(a, b) && IsSuffix(b, c)
    ensures IsSuffix(a, c)
  {
    assert c[|c| - |b|..][|b| - |a|..] == c[|c| - |a|..];
  }

  lemma SuffixOfTail(a: seq<string>, c: seq<string>, k: nat)
    requires k <= |c| && IsSuffix(a, c[k..])
    ensures IsSuffix(a, c)
  {
    assert c[k..][|c[k..]| - |a|..] == c[|c| - |a|..];
  }

  /** The four ints after `padding`, in the file's order top, right, bottom,
      left. */
  function ReadPadding(ts: seq<string>, h: Header): (r: Result<(Header, seq<string>), ParseError>)
    ensures r.Ok? ==>
      (|ts| >= 4 && r.value.1 == ts[4..] &&
       Some(r.value.0.padTop) == ParseInt(ts[0]) && Some(r.value.0.padRight) == ParseInt(ts[1]) &&
       Some(r.value.0.padBottom) == ParseInt(ts[2]) && Some(r.value.0.padLeft) == ParseInt(ts[3]) &&
       r.value.0 == h.(padTop := r.value.0.padTop, padRight := r.value.0.padRight,
                       padBottom := r.value.0.padBottom, padLeft := r.value.0.padLeft))
    ensures (forall i :: 0 <= i < 4 && i < |ts| ==> ParseInt(ts[i]).Some?) ==>
            if |ts| >= 4 then r.Ok? else r == Err(Truncated)
  {
    match NextInt(ts)
    case Err(e) => Err(e)
    case Ok((top, ts1)) =>
      match NextInt(ts1)
      case Err(e) => Err(e)
      case Ok((right, ts2)) =>
        match NextInt(ts2)
        case Err(e) => Err(e)
        case Ok((bottom, ts3)) =>
          match NextInt(ts3)
          case Err(e) => Err(e)
          case Ok((left, ts4)) =>
            Ok((h.(padTop := top, padRight := right, padBottom := bottom, padLeft := left), ts4))
  }

  /** The `for token in fnt_stream` loop of `load_font_data`: each keyword
      takes its value from the following token(s); `chars` always consumes
      one more token, and only `chars count N` ends the loop, leaving the
      rest of the stream for the glyphs. A stream that runs out first ends
      the loop with nothing left. */
  function ParseHeader(ts: seq<string>, h: Header): (r: Result<(Header, seq<string>), ParseError>)
    ensures r.Ok? ==> IsSuffix(r.value.1, ts)
    decreases |ts|
  {
    if ts == [] then Ok((h, []))
    else
      var t := ts[0];
      var rest := ts[1..];
      if t == "face" || t == "size" || t == "file" then
        match Next(rest)
        case Err(e) => Err(e)
        case Ok((v, rest')) =>
          var h' := if t == "face" then h.(name := v) else if t == "size" then h.(size := v) else h.(imgPath := v);
          var r := ParseHeader(rest', h');
          if r.Ok? then SuffixOfTail(r.value.1, ts, 2); r else r
      else if t == "padding" then
        match ReadPadding(rest, h)
        case Err(e) => Err(e)
        case Ok((h', rest')) =>
          var r := ParseHeader(rest', h');
          if r.Ok? then SuffixOfTail(r.value.1, ts, 5); r else r
      else if t == "lineHeight" then
        match NextInt(rest)
        case Err(e) => Err(e)
        case Ok((v, rest')) =>
          var r := ParseHeader(rest', h.(lineHeight := v));
          if r.Ok? then SuffixOfTail(r.value.1, ts, 2); r else r
      else if t == "chars" then
        match Next(rest)
        case Err(e) => Err(e)
        case Ok((w, rest')) =>
          if w == "count" then
            match NextInt(rest')
            case Err(e) => Err(e)
            case Ok((n, rest'')) =>
              assert rest'' == ts[3..];
              Ok((h.(numGlyphs := n), rest''))
          else
            var r := ParseHeader(rest', h);
            if r.Ok? then SuffixOfTail(r.value.1, ts, 2); r else r
      else
        var r := ParseHeader(rest, h);
        if r.Ok? then SuffixOfTail(r.value.1, ts, 1); r else r
  }

  /** Tokens that mean something to the header loop. */
  predicate IsHeaderKeyword(t: string)
  {
    t == "face" || t == "size" || t == "file" || t == "padding" || t == "lineHeight" || t == "chars"
  }

  /** A header keyword-free stream changes nothing and is used up. */
  lemma {:induction false} HeaderSkipsOtherTokens(ts: seq<string>, h: Header)
    requires forall i :: 0 <= i < |ts| ==> !IsHeaderKeyword(ts[i])
    ensures ParseHeader(ts, h) == Ok((h, []))
  {
    if ts != [] {
      assert forall i :: 0 <= i < |ts[1..]| ==> ts[1..][i] == ts[i + 1];
      HeaderSkipsOtherTokens(ts[1..], h);
    }
  }

  /** `padding=1,2,3,4` sets top 1, right 2, bottom 3 and left 4. */
  lemma PaddingOrder(top: int, right: int, bottom: int, left: int, rest: seq<string>, h: Header)
    ensures ParseHeader(["padding", ShowInt(top), ShowInt(right), ShowInt(bottom), ShowInt(left)] + rest, h)
         == ParseHeader(rest, h.(padTop := top, padRight := right, padBottom := bottom, padLeft := left))
  {
    ParseShowInt(top);
    ParseShowInt(right);
    ParseShowInt(bottom);
    ParseShowInt(left);
    var ts := ["padding", ShowInt(top), ShowInt(right), ShowInt(bottom), ShowInt(left)] + rest;
    assert ts[1..][4..] == rest;
  }

  /** `chars count=N` records N and stops: whatever follows, header
      keywords included, is left for the glyph loop. */
  lemma StopsAfterCharsCount(n: int, rest: seq<string>, h: Header)
    ensures ParseHeader(["chars", "count", ShowInt(n)] + rest, h) == Ok((h.(numGlyphs := n), rest))
  {
    ParseShowInt(n);
    var ts := ["chars", "count", ShowInt(n)] + rest;
    assert ts[1..][1..][1..] == rest;
  }

  // ----- Glyph records -----

  /** A `Glyph` object; every attribute defaults to 0. */
  datatype GlyphRec = GlyphRec(id: int, x: int, y: int, width: int, height: int,
                               xoffset: int, yoffset: int, xadvance: int)

  const BlankGlyph: GlyphRec := GlyphRec(0, 0, 0, 0, 0, 0, 0, 0)

  predicate IsGlyphField(t: string)
  {
    t == "x" || t == "y" || t == "width" || t == "height" ||
    t == "xoffset" || t == "yoffset" || t == "xadvance"
  }

  function SetField(g: GlyphRec, t: string, v: int): (r: GlyphRec)
    requires IsGlyphField(t)
  {
    if t == "x" then g.(x := v)
    else if t == "y" then g.(y := v)
    else if t == "width" then g.(width := v)
    else if t == "height" then g.(height := v)
    else if t == "xoffset" then g.(xoffset := v)
    else if t == "yoffset" then g.(yoffset := v)
    else g.(xadvance := v)
  }

  /** One turn of the `for token in fnt_stream` loop of
      `write_glyph_data`: `char id N` starts a blank glyph with id N; each
      field keyword sets that field of the latest glyph, reading its value
      before looking for the glyph; `char` followed by anything but `id`
      drops both tokens; every other token is skipped. Returns the glyphs
      and the rest of the stream. */
  function GlyphStep(ts: seq<string>, gs: seq<GlyphRec>): (r: Result<(seq<GlyphRec>, seq<string>), ParseError>)
    requires ts != []
    ensures r.Ok? ==> |r.value.1| < |ts| && IsSuffix(r.value.1, ts)
    ensures r.Ok? ==> |r.value.0| >= |gs| && (gs != [] ==> r.value.0[..|gs| - 1] == gs[..|gs| - 1])
    ensures r == Err(NoGlyph) <==> gs == [] && IsGlyphField(ts[0]) && |ts| >= 2 && ParseInt(ts[1]).Some?
  {
    var t := ts[0];
    var rest := ts[1..];
    if t == "char" then
      match Next(rest)
      case Err(e) => Err(e)
      case Ok((w, rest')) =>
        if w == "id" then
          match NextInt(rest')
          case Err(e) => Err(e)
          case Ok((v, rest'')) =>
            assert rest'' == ts[3..];
            Ok((gs + [BlankGlyph.(id := v)], rest''))
        else Ok((gs, rest'))
    else if IsGlyphField(t) then
      match NextInt(rest)
      case Err(e) => Err(e)
      case Ok((v, rest')) =>
        if gs == [] then Err(NoGlyph)
        else Ok((gs[..|gs| - 1] + [SetField(gs[|gs| - 1], t, v)], rest'))
    else Ok((gs, rest))
  }

  /** The whole glyph loop: turns until the stream is used up or the
      script dies. Glyphs before the latest one are never touched again. */
  function ParseGlyphs(ts: seq<string>, gs: seq<GlyphRec>): (r: Result<seq<GlyphRec>, ParseError>)
    ensures r.Ok? ==> |r.value| >= |gs| && (gs != [] ==> r.value[..|gs| - 1] == gs[..|gs| - 1])
    decreases |ts|
  {
    if ts == [] then Ok(gs)
    else
      match GlyphStep(ts, gs)
      case Err(e) => Err(e)
      case Ok((gs', rest)) =>
        var r := ParseGlyphs(rest, gs');
        if r.Ok? && gs != [] then
          assert r.value[..|gs| - 1] == r.value[..|gs'| - 1][..|gs| - 1];
          r
        else r
  }

  /** The tokens of one `char` line as BMFont writes it, after the
      tokenizer: `char id=.. x=.. y=.. width=.. height=.. xoffset=..
      yoffset=.. xadvance=..`. */
  function CharTokens(g: GlyphRec): seq<string>
  {
    ["char", "id", ShowInt(g.id), "x", ShowInt(g.x), "y", ShowInt(g.y),
     "width", ShowInt(g.width), "height", ShowInt(g.height),
     "xoffset", ShowInt(g.xoffset), "yoffset", ShowInt(g.yoffset),
     "xadvance", ShowInt(g.xadvance)]
  }

  function AllCharTokens(gs: seq<GlyphRec>): seq<string>
  {
    if gs == [] then [] else CharTokens(gs[0]) + AllCharTokens(gs[1..])
  }

  /** A number is never a keyword. */
  lemma NumberIsNoKeyword(n: int)
    ensures var s := ShowInt(n);
            !IsGlyphField(s) && s != "char" && s != "id" && !IsHeaderKeyword(s)
  {
    var s := ShowInt(n);
    assert IsDigit(s[0]) || s[0] == '-';
  }

  /** One field token pair sets that field of the latest glyph. */
  lemma StepField(t: string, v: int, rest: seq<string>, gs: seq<GlyphRec>, c: GlyphRec)
    requires IsGlyphField(t)
    ensures ParseGlyphs([t, ShowInt(v)] + rest, gs + [c]) == ParseGlyphs(rest, gs + [SetField(c, t, v)])
  {
    ParseShowInt(v);
    assert ([t, ShowInt(v)] + rest)[1..][1..] == rest;
    assert (gs + [c])[..|gs + [c]| - 1] == gs;
  }

  /** `char id N` opens a blank glyph with id N. */
  lemma StepCharId(id: int, rest: seq<string>, gs: seq<GlyphRec>)
    ensures ParseGlyphs(["char", "id", ShowInt(id)] + rest, gs) == ParseGlyphs(rest, gs + [BlankGlyph.(id := id)])
  {
    ParseShowInt(id);
    var ts := ["char", "id", ShowInt(id)] + rest;
    assert ts[1..][1..][1..] == rest;
  }

  /** The tokens of a `char` line, cut into the opening and the seven
      field pairs. */
  lemma CharTokensSplit(g: GlyphRec, rest: seq<string>)
    ensures CharTokens(g) + rest ==
      ["char", "id", ShowInt(g.id)] + (["x", ShowInt(g.x)] + (["y", ShowInt(g.y)] +
      (["width", ShowInt(g.width)] + (["height", ShowInt(g.height)] +
      (["xoffset", ShowInt(g.xoffset)] + (["yoffset", ShowInt(g.yoffset)] +
      (["xadvance", ShowInt(g.xadvance)] + rest)))))))
  {
  }

  /** One `char` line appends exactly the glyph it describes. */
  lemma StepChar(g: GlyphRec, rest: seq<string>, gs: seq<GlyphRec>)
    ensures ParseGlyphs(CharTokens(g) + rest, gs) == ParseGlyphs(rest, gs + [g])
  {
    var r6 := ["xadvance", ShowInt(g.xadvance)] + rest;
    var r5 := ["yoffset", ShowInt(g.yoffset)] + r6;
    var r4 := ["xoffset", ShowInt(g.xoffset)] + r5;
    var r3 := ["height", ShowInt(g.height)] + r4;
    var r2 := ["width", ShowInt(g.width)] + r3;
    var r1 := ["y", ShowInt(g.y)] + r2;
    var r0 := ["x", ShowInt(g.x)] + r1;
    CharTokensSplit(g, rest);
    var g0 := BlankGlyph.(id := g.id);
    var g1 := g0.(x := g.x);
    var g2 := g1.(y := g.y);
    var g3 := g2.(width := g.width);
    var g4 := g3.(height := g.height);
    var g5 := g4.(xoffset := g.xoffset);
    var g6 := g5.(yoffset := g.yoffset);
    StepCharId(g.id, r0, gs);
    StepField("x", g.x, r1, gs, g0);
    StepField("y", g.y, r2, gs, g1);
    StepField("width", g.width, r3, gs, g2);
    StepField("height", g.height, r4, gs, g3);
    StepField("xoffset", g.xoffset, r5, gs, g4);
    StepField("yoffset", g.yoffset, r6, gs, g5);
    StepField("xadvance", g.xadvance, rest, gs, g6);
    assert SetField(g6, "xadvance", g.xadvance) == g;
  }

  /** The glyph loop reads back exactly the glyphs whose lines it is
      given, in order. */
  lemma {:induction false} GlyphsRoundTrip(gs: seq<GlyphRec>, acc: seq<GlyphRec>)
    ensures ParseGlyphs(AllCharTokens(gs), acc) == Ok(acc + gs)
  {
    if gs == [] {
      assert acc + gs == acc;
    } else {
      StepFirstChar(gs, acc);
      GlyphsRoundTrip(gs[1..], acc + [gs[0]]);
      AppendHead(acc, gs);
    }
  }

  lemma StepFirstChar(gs: seq<GlyphRec>, acc: seq<GlyphRec>)
    requires gs != []
    ensures ParseGlyphs(AllCharTokens(gs), acc) == ParseGlyphs(AllCharTokens(gs[1..]), acc + [gs[0]])
  {
    var tail := AllCharTokens(gs[1..]);
    assert AllCharTokens(gs) == CharTokens(gs[0]) + tail;
    StepChar(gs[0], tail, acc);
  }

  /** A field line before the first `char id` kills the script. */
  lemma FieldBeforeGlyphFails(t: string, v: int, rest: seq<string>)
    requires IsGlyphField(t)
    ensures ParseGlyphs([t, ShowInt(v)] + rest, []) == Err(NoGlyph)
  {
    ParseShowInt(v);
  }

  /** `load_font_data` followed by the glyph loop of `write_glyph_data`,
      which reads on from where the header loop stopped. */
  function ReadFont(text: string): (r: Result<(Header, seq<GlyphRec>), ParseError>)
    ensures r.Ok? ==> ParseHeader(Tokenize(text), InitialHeader).Ok?
  {
    match ParseHeader(Tokenize(text), InitialHeader)
    case Err(e) => Err(e)
    case Ok((h, rest)) =>
      match ParseGlyphs(rest, [])
      case Err(e) => Err(e)
      case Ok(gs) => Ok((h, gs))
  }

  /** A file whose tokens are `chars count N` followed by the lines of some
      glyphs reads back as the default header with that count and exactly
      those glyphs. */
  lemma ReadFontRoundTrip(text: string, n: int, gs: seq<GlyphRec>)
    requires Tokenize(text) == ["chars", "count", ShowInt(n)] + AllCharTokens(gs)
    ensures ReadFont(text) == Ok((InitialHeader.(numGlyphs := n), gs))
  {
    StopsAfterCharsCount(n, AllCharTokens(gs), InitialHeader);
    GlyphsRoundTrip(gs, []);
    assert [] + gs == gs;
  }
}
