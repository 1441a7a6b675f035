/** The writing half of the BMFont converter: the PNG bytes as a C array
    and the 255-row glyph table, as the text written to `<name>_font.hpp`.
    The file handles are left out; each section is the string it writes. */
module FontHeaderWriter {
  import opened Common
  import opened FontConverter

  // ----- Image name -----

  /** `fnt_img_path.split(".")[0]`: the path up to its first dot. */
  function ImageName(path: string): (name: string)
    ensures '.' !in name && name <= path
    ensures |name| < |path| ==> path[|name|] == '.'
  {
    if path == [] || path[0] == '.' then []
    else [path[0]] + ImageName(path[1..])
  }

  /** Whatever follows the first dot does not change the name. */
  lemma {:induction false} ImageNameOfDotted(stem: string, ext: string)
    requires '.' !in stem
    ensures ImageName(stem + "." + ext) == stem
  {
    if stem != [] {
      assert (stem + "." + ext)[1..] == stem[1..] + "." + ext;
      assert '.' !in stem[1..] by { assert forall c :: c in stem[1..] ==> c in stem; }
      assert stem[0] != '.' by { assert stem[0] in stem; }
      ImageNameOfDotted(stem[1..], ext);
      assert [stem[0]] + stem[1..] == stem;
    }
  }

  // ----- Hex dump -----

  function HexDigit(d: nat): (c: char)
    requires d < 16
    ensures '0' <= c <= '9' || 'A' <= c <= 'F'
  {
    if d < 10 then ('0' as int + d) as char else ('A' as int + d - 10) as char
  }

  function HexValue(c: char): (v: Option<nat>)
    ensures v.Some? ==> v.value < 16
  {
    if '0' <= c <= '9' then Some(c as int - '0' as int)
    else if 'A' <= c <= 'F' then Some(c as int - 'A' as int + 10)
    else None
  }

  /** `{:02X}`: two upper-case hex digits. */
  function Hex2(b: Byte): (s: string)
    ensures |s| == 2
  {
    [HexDigit(b / 16), HexDigit(b % 16)]
  }

  /** The two digits read back as the byte. */
  lemma Hex2RoundTrip(b: Byte)
    ensures var s := Hex2(b);
            HexValue(s[0]).Some? && HexValue(s[1]).Some? &&
            HexValue(s[0]).value * 16 + HexValue(s[1]).value == b
  {
  }

  /** Different bytes give different text. */
  lemma Hex2Injective(a: Byte, b: Byte)
    requires Hex2(a) == Hex2(b)
    ensures a == b
  {
    Hex2RoundTrip(a);
    Hex2RoundTrip(b);
  }

  const BytesPerLine: nat := 20

  /** The text of byte `k`: `0x..`, then `, ` unless it is the last byte,
      then a newline after every 20th byte. */
  function Item(bytes: seq<Byte>, k: nat): string
    requires k < |bytes|
  {
    "0x" + Hex2(bytes[k]) + (if k == |bytes| - 1 then "" else ", ") +
    (if k % BytesPerLine == BytesPerLine - 1 then "\n" else "")
  }

  /** The text of the first `n` bytes. */
  function Items(bytes: seq<Byte>, n: nat): string
    requires n <= |bytes|
  {
    if n == 0 then "" else Items(bytes, n - 1) + Item(bytes, n - 1)
  }

  const ArrayClose: string := "};\n\n"

  const ArrayDecl: string := "const unsigned char "
  const ArraySuffix: string := "_png[] ="
  const OpenBrace: string := "\n{\n"

  function ArrayOpen(name: string): string
  {
    ArrayDecl + name + ArraySuffix + OpenBrace
  }

  /** The whole image section: the opening, the bytes, one more newline
      when the last line is not full, and the closing. */
  function ImageSection(name: string, bytes: seq<Byte>): string
  {
    ArrayOpen(name) + Items(bytes, |bytes|) +
    (if |bytes| % BytesPerLine != 0 then "\n" else "") + ArrayClose
  }

  /** `write_image_data` after the file is read: the loop with its
      `bytes_count` wrap-around counter. */
  method WriteImageData(imgPath: string, bytes: seq<Byte>) returns (out: string)
    ensures out == ImageSection(ImageName(imgPath), bytes)
  {
    var name := ImageName(imgPath);
    out := ArrayOpen(name);
    var bytesCount := 0;
    var i := 0;
    while i < |bytes|
      invariant 0 <= i <= |bytes|
      invariant bytesCount == i % BytesPerLine
      invariant out == ArrayOpen(name) + Items(bytes, i)
    {
      var numFormat := if i == |bytes| - 1 then "" else ", ";
      var lineEnd := if bytesCount == BytesPerLine - 1 then "\n" else "";
      var item := "0x" + Hex2(bytes[i]) + numFormat + lineEnd;
      assert item == Item(bytes, i);
      AppendAssoc(ArrayOpen(name), Items(bytes, i), item);
      out := out + item;
      bytesCount := (bytesCount + 1) % BytesPerLine;
      ModSucc(i, BytesPerLine);
      i := i + 1;
    }
    if bytesCount != 0 {
      out := out + "\n";
    }
    out := out + ArrayClose;
  }

  function CountChar(s: string, c: char): (n: nat)
    ensures n <= |s|
  {
    if s == [] then 0 else (if s[0] == c then 1 else 0) + CountChar(s[1..], c)
  }

  lemma {:induction false} CountAppend(a: string, b: string, c: char)
    ensures CountChar(a + b, c) == CountChar(a, c) + CountChar(b, c)
  {
    if a == [] {
      assert a + b == b;
    } else {
      assert (a + b)[1..] == a[1..] + b;
      CountAppend(a[1..], b, c);
    }
  }

  lemma ItemNewlines(bytes: seq<Byte>, k: nat)
    requires k < |bytes|
    ensures CountChar(Item(bytes, k), '\n') == if k % BytesPerLine == BytesPerLine - 1 then 1 else 0
  {
    var h := "0x" + Hex2(bytes[k]);
    var sep: string := if k == |bytes| - 1 then "" else ", ";
    var nl: string := if k % BytesPerLine == BytesPerLine - 1 then "\n" else "";
    CountAppend(h + sep, nl, '\n');
    CountAppend(h, sep, '\n');
    NoCharNoCount(h, '\n');
    NoCharNoCount(sep, '\n');
  }

  /** A newline follows every 20th byte and no other. */
  lemma {:induction false} ItemsNewlines(bytes: seq<Byte>, n: nat)
    requires n <= |bytes|
    ensures CountChar(Items(bytes, n), '\n') == n / BytesPerLine
  {
    if n > 0 {
      var front := Items(bytes, n - 1);
      var last := Item(bytes, n - 1);
      assert Items(bytes, n) == front + last;
      ItemsNewlines(bytes, n - 1);
      CountAppend(front, last, '\n');
      ItemNewlines(bytes, n - 1);
      DivStep(n - 1, BytesPerLine);
      var lineEnds := if (n - 1) % BytesPerLine == BytesPerLine - 1 then 1 else 0;
      assert CountChar(last, '\n') == lineEnds;
      assert CountChar(front, '\n') == (n - 1) / BytesPerLine;
      assert n / BytesPerLine == (n - 1) / BytesPerLine + lineEnds;
    }
  }

  lemma DivStep(m: nat, d: nat)
    requires d > 0
    ensures (m + 1) / d == m / d + (if m % d == d - 1 then 1 else 0)
  {
    var q := m / d;
    var r := m % d;
    assert m == q * d + r;
    if r + 1 < d {
      ModUnique(m + 1, d, q, r + 1);
    } else {
      assert m + 1 == (q + 1) * d + 0;
      ModUnique(m + 1, d, q + 1, 0);
    }
  }

  /** The image section spans one line per 20 bytes, rounded up, plus the
      three lines of its frame and a blank line. */
  lemma ImageSectionLines(name: string, bytes: seq<Byte>)
    requires '\n' !in name
    ensures CountChar(ImageSection(name, bytes), '\n') == 4 + (|bytes| + BytesPerLine - 1) / BytesPerLine
  {
    var n := |bytes|;
    var open := ArrayOpen(name);
    var body := Items(bytes, n);
    var pad: string := if n % BytesPerLine != 0 then "\n" else "";
    CountAppend(open + body + pad, ArrayClose, '\n');
    CountAppend(open + body, pad, '\n');
    CountAppend(open, body, '\n');
    ItemsNewlines(bytes, n);
    ArrayOpenLines(name);
    BraceLines();
    assert CountChar(pad, '\n') == if n % BytesPerLine != 0 then 1 else 0;
    RoundUp(n, BytesPerLine);
  }

  lemma ArrayOpenLines(name: string)
    requires '\n' !in name
    ensures CountChar(ArrayOpen(name), '\n') == 2
  {
    CountAppend(ArrayDecl + name + ArraySuffix, OpenBrace, '\n');
    CountAppend(ArrayDecl + name, ArraySuffix, '\n');
    CountAppend(ArrayDecl, name, '\n');
    NoCharNoCount(name, '\n');
    DeclLines();
    SuffixLines();
    BraceLines();
  }

  lemma DeclLines()
    ensures CountChar(ArrayDecl, '\n') == 0
  {
    NoCharNoCount(ArrayDecl, '\n');
  }

  lemma SuffixLines()
    ensures CountChar(ArraySuffix, '\n') == 0
  {
    NoCharNoCount(ArraySuffix, '\n');
  }

  lemma BraceLines()
    ensures CountChar(OpenBrace, '\n') == 2 && CountChar(ArrayClose, '\n') == 2
  {
  }

  lemma {:induction false} NoCharNoCount(s: string, c: char)
    requires c !in s
    ensures CountChar(s, c) == 0
  {
    if s != [] {
      assert forall x :: x in s[1..] ==> x in s;
      NoCharNoCount(s[1..], c);
    }
  }

  lemma RoundUp(n: nat, d: nat)
    requires d > 0
    ensures n / d + (if n % d != 0 then 1 else 0) == (n + d - 1) / d
  {
    var q := n / d;
    var r := n % d;
    assert n == q * d + r;
    if r == 0 {
      ModUnique(n + d - 1, d, q, d - 1);
    } else {
      ModUnique(n + d - 1, d, q + 1, r - 1);
    }
  }

  /** The last byte is the only one without a trailing comma. */
  lemma LastItemHasNoComma(bytes: seq<Byte>, k: nat)
    requires k < |bytes|
    ensures var s := Item(bytes, k);
            4 <= |s| && s[..4] == "0x" + Hex2(bytes[k]) &&
            (k == |bytes| - 1 <==> (|s| == 4 || s[4] != ','))
  {
  }

  // ----- Glyph table -----

  /** Rows of the table: ids 0 to 254. */
  const TableRows: nat := 255

  /** The inner loop of `write_glyph_data`: goes over every glyph and keeps
      the last one whose id is `i`, starting from a blank glyph. */
  function Lookup(gs: seq<GlyphRec>, i: int, cur: GlyphRec): (g: GlyphRec)
  {
    if gs == [] then cur else Lookup(gs[1..], i, if gs[0].id == i then gs[0] else cur)
  }

  /** An independent account of the same choice: the position of the last
      glyph with id `i`, searched from the back. */
  function LastWithId(gs: seq<GlyphRec>, i: int): (k: Option<nat>)
    ensures k.Some? ==> k.value < |gs| && gs[k.value].id == i &&
                        forall j :: k.value < j < |gs| ==> gs[j].id != i
    ensures k.None? ==> forall j :: 0 <= j < |gs| ==> gs[j].id != i
  {
    if gs == [] then None
    else if gs[|gs| - 1].id == i then Some(|gs| - 1)
    else LastWithId(gs[..|gs| - 1], i)
  }

  lemma {:induction false} LookupIsLastMatch(gs: seq<GlyphRec>, i: int, cur: GlyphRec)
    ensures Lookup(gs, i, cur) == match LastWithId(gs, i) case Some(k) => gs[k] case None => cur
    decreases |gs|
  {
    if gs != [] {
      var cur' := if gs[0].id == i then gs[0] else cur;
      LookupIsLastMatch(gs[1..], i, cur');
      match LastWithId(gs[1..], i)
      case Some(k) => {
        assert gs[1..][k] == gs[k + 1];
        LastWithIdIs(gs, i, k + 1);
      }
      case None => {
        if gs[0].id == i {
          assert forall j :: 1 <= j < |gs| ==> gs[j].id != i by {
            forall j | 1 <= j < |gs| ensures gs[j].id != i { assert gs[1..][j - 1] == gs[j]; }
          }
          LastWithIdIs(gs, i, 0);
        } else {
          forall j | 0 <= j < |gs| ensures gs[j].id != i {
            if j > 0 { assert gs[1..][j - 1] == gs[j]; }
          }
          LastWithIdNone(gs, i);
        }
      }
    }
  }

  /** `LastWithId` is pinned down by its contract. */
  lemma LastWithIdIs(gs: seq<GlyphRec>, i: int, k: nat)
    requires k < |gs| && gs[k].id == i && forall j :: k < j < |gs| ==> gs[j].id != i
    ensures LastWithId(gs, i) == Some(k)
  {

  }

  lemma LastWithIdNone(gs: seq<GlyphRec>, i: int)
    requires forall j :: 0 <= j < |gs| ==> gs[j].id != i
    ensures LastWithId(gs, i) == None
  {
  }

  /** The glyph of table row `i`. */
  function RowGlyph(gs: seq<GlyphRec>, i: int): GlyphRec
  {
    Lookup(gs, i, BlankGlyph)
  }

  /** A row is the glyph with that id, the last one when there are
      several, and blank when there is none. */
  lemma RowGlyphChoice(gs: seq<GlyphRec>, i: int)
    ensures (forall j :: 0 <= j < |gs| ==> gs[j].id != i) ==> RowGlyph(gs, i) == BlankGlyph
    ensures forall k :: 0 <= k < |gs| && gs[k].id == i && (forall j :: k < j < |gs| ==> gs[j].id != i) ==>
                        RowGlyph(gs, i) == gs[k]
  {
    LookupIsLastMatch(gs, i, BlankGlyph);
    forall k | 0 <= k < |gs| && gs[k].id == i && (forall j :: k < j < |gs| ==> gs[j].id != i)
      ensures RowGlyph(gs, i) == gs[k]
    {
      LastWithIdIs(gs, i, k);
    }
    if forall j :: 0 <= j < |gs| ==> gs[j].id != i {
      LastWithIdNone(gs, i);
    }
  }

  /** A glyph read later replaces any earlier one with its id. */
  lemma LaterGlyphWins(gs: seq<GlyphRec>, g: GlyphRec)
    ensures RowGlyph(gs + [g], g.id) == g
  {
    LookupIsLastMatch(gs + [g], g.id, BlankGlyph);
  }

  /** A glyph whose id has no row changes no row. */
  lemma OutOfRangeGlyphDropped(gs: seq<GlyphRec>, g: GlyphRec, i: int)
    requires !(0 <= g.id < TableRows) && 0 <= i < TableRows
    ensures RowGlyph(gs + [g], i) == RowGlyph(gs, i)
  {
    LookupIsLastMatch(gs + [g], i, BlankGlyph);
    LookupIsLastMatch(gs, i, BlankGlyph);
    assert (gs + [g])[..|gs|] == gs;
  }

  /** `{:4d}`: right-aligned in four columns, never cut. */
  function Field(n: int): (s: string)
    ensures |s| == if |ShowInt(n)| < 4 then 4 else |ShowInt(n)|
    ensures s[|s| - |ShowInt(n)|..] == ShowInt(n)
    ensures forall j :: 0 <= j < |s| - |ShowInt(n)| ==> s[j] == ' '
  {
    var d := ShowInt(n);
    Spaces(if |d| < 4 then 4 - |d| else 0) + d
  }

  function Spaces(k: nat): (s: string)
    ensures |s| == k && forall j :: 0 <= j < k ==> s[j] == ' '
  {
    if k == 0 then "" else " " + Spaces(k - 1)
  }

  /** Values from -999 to 9999 take exactly four columns. */
  lemma {:induction false} FieldWidth(n: int)
    requires -999 <= n <= 9999
    ensures |Field(n)| == 4
  {
    ShowIntLength(n);
  }

  lemma ShowIntLength(n: int)
    requires -999 <= n <= 9999
    ensures |ShowInt(n)| <= 4
  {
    if n < 0 {
      DigitsLength(-n);
    } else {
      DigitsLength(n);
    }
  }

  lemma DigitsLength(n: nat)
    requires n <= 9999
    ensures |Digits(n)| <= 4 && (n <= 999 ==> |Digits(n)| <= 3)
  {
    if n >= 10 {
      DigitsLength(n / 10);
    }
  }

  /** The seven fields of a glyph, in the order of `EMFontRenderer::Glyph`. */
  function RowFields(g: GlyphRec): seq<int>
  {
    [g.x, g.y, g.width, g.height, g.xoffset, g.yoffset, g.xadvance]
  }

  function JoinFields(ns: seq<int>): string
  {
    if ns == [] then "" else if |ns| == 1 then Field(ns[0]) else Field(ns[0]) + ", " + JoinFields(ns[1..])
  }

  /** One line of the table: `    {` then the seven fields separated by
      `, ` then `},`. */
  function Row(g: GlyphRec): string
  {
    "    {" + JoinFields(RowFields(g)) + "},\n"
  }

  lemma {:induction false} JoinFieldsLength(ns: seq<int>)
    requires |ns| >= 1 && forall j :: 0 <= j < |ns| ==> -999 <= ns[j] <= 9999
    ensures |JoinFields(ns)| == 6 * |ns| - 2
  {
    FieldWidth(ns[0]);
    if |ns| > 1 {
      JoinFieldsLength(ns[1..]);
    }
  }

  /** With every value within four columns, each row is 48 characters. */
  lemma RowLength(g: GlyphRec)
    requires forall j :: 0 <= j < 7 ==> -999 <= RowFields(g)[j] <= 9999
    ensures |Row(g)| == 48
  {
    JoinFieldsLength(RowFields(g));
  }

  /** The lines of a table, one after the other. */
  function Lines(rows: seq<string>): string
  {
    if rows == [] then "" else Lines(rows[..|rows| - 1]) + rows[|rows| - 1]
  }

  /** The rows for ids `0` to `n - 1`. */
  function Rows(gs: seq<GlyphRec>, n: nat): string
  {
    Lines(seq(n, i => Row(RowGlyph(gs, i))))
  }

  /** The glyph section: its opening, one row per id from 0 to 254, and the
      closing. */
  function GlyphSection(imgName: string, gs: seq<GlyphRec>): string
  {
    "const EMFontRenderer::Glyph " + imgName + "_glyphData[] =\n{\n" + Rows(gs, TableRows) + ArrayClose
  }

  lemma RowNewlines(g: GlyphRec)
    ensures CountChar(Row(g), '\n') == 1
  {
    var mid := JoinFields(RowFields(g));
    CountAppend("    {" + mid, "},\n", '\n');
    CountAppend("    {", mid, '\n');
    JoinFieldsNoNewline(RowFields(g));
    NoCharNoCount(mid, '\n');
  }

  lemma {:induction false} JoinFieldsNoNewline(ns: seq<int>)
    ensures '\n' !in JoinFields(ns)
  {
    if |ns| > 0 {
      var f := Field(ns[0]);
      FieldNoNewline(ns[0]);
      if |ns| > 1 {
        var rest := JoinFields(ns[1..]);
        JoinFieldsNoNewline(ns[1..]);
        assert JoinFields(ns) == f + ", " + rest;
        AppendAssoc(f, ", ", rest);
        NotInAppend(f, ", " + rest, '\n');
        NotInAppend(", ", rest, '\n');
      }
    }
  }

  lemma NotInAppend(a: string, b: string, c: char)
    requires c !in a && c !in b
    ensures c !in a + b
  {
  }

  lemma FieldNoNewline(n: int)
    ensures '\n' !in Field(n)
  {
    var s := Field(n);
    var d := ShowInt(n);
    forall j | 0 <= j < |s|
      ensures s[j] != '\n'
    {
      if j >= |s| - |d| {
        assert s[j] == d[j - (|s| - |d|)];
      }
    }
  }

  /** The table has exactly one line per row. */
  lemma RowsNewlines(gs: seq<GlyphRec>, n: nat)
    ensures CountChar(Rows(gs, n), '\n') == n
  {
    var rows := seq(n, i => Row(RowGlyph(gs, i)));
    forall i | 0 <= i < n
      ensures CountChar(rows[i], '\n') == 1
    {
      RowNewlines(RowGlyph(gs, i));
    }
    LinesNewlines(rows);
  }

  /** Lines of one newline each make a text of one newline per line. */
  lemma {:induction false} LinesNewlines(rows: seq<string>)
    requires forall i :: 0 <= i < |rows| ==> CountChar(rows[i], '\n') == 1
    ensures CountChar(Lines(rows), '\n') == |rows|
  {
    if rows != [] {
      var front := rows[..|rows| - 1];
      LinesNewlines(front);
      CountAppend(Lines(front), rows[|rows| - 1], '\n');
    }
  }
}
