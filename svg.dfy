/**
 * The SVG swatch writer (src/parsers/svg.rs), string building only: a fixed
 * header, then for each palette colour one `<rect>` line and one `<text>`
 * line, then the closing tag. Swatches are stacked vertically, 60 high with
 * 10 of spacing, so entry i starts at y = 70 * i.
 *
 * The document is specified by the function `Document`; the readers at the
 * end of the module take a document apart again, and `DocumentLayout`
 * states what a reader of the output finds in it.
 */
module SvgSwatches {
  import opened Outcomes
  import opened Colors
  import opened TextFormat

  const SwatchWidth: nat := 100
  const SwatchHeight: nat := 60
  const Spacing: nat := 10
  const FontSize: nat := 14
  const LabelX: nat := 5

  // ---------------------------------------------------------------------------
  // The three format! templates
  // ---------------------------------------------------------------------------

  /** The opening `<svg>` element and the style block, four newline-terminated lines. */
  function HeaderTemplate(width: nat, height: nat, fontSize: nat): string
  {
    "<svg width=\"" + Decimal(width) + "\" height=\"" + Decimal(height)
      + "\" xmlns=\"http://www.w3.org/2000/svg\">\n"
      + "             <style>\n"
      + ("                " + ".label { font-family: sans-serif; " + "font-size: ") + Decimal(fontSize)
      + "px; fill: #000; }\n"
      + "             </style>\n"
  }

  function RectTemplate(y: nat, w: nat, h: nat, color: string): string
  {
    "<rect x=\"0\" y=\"" + Decimal(y) + "\" width=\"" + Decimal(w) + "\" height=\""
      + Decimal(h) + "\" fill=\"" + color + "\" />"
  }

  function TextTemplate(x: nat, y: nat, text: string): string
  {
    "<text x=\"" + Decimal(x) + "\" y=\"" + Decimal(y) + "\" class=\"label\">" + text + "</text>"
  }

  // ---------------------------------------------------------------------------
  // The document
  // ---------------------------------------------------------------------------

  /** The vertical offset of entry `i`. */
  function YOffset(i: nat): nat
  {
    i * (SwatchHeight + Spacing)
  }

  function RectLine(i: nat, color: HexColor): string
  {
    RectTemplate(YOffset(i), SwatchWidth, SwatchHeight, ToHexString(color))
  }

  function TextLine(i: nat, color: HexColor): string
  {
    TextTemplate(LabelX, YOffset(i) + SwatchHeight / 2 + FontSize / 2, ToHexString(color))
  }

  /** The lines of the body: for each entry, its rect line then its text line. */
  function BodyLines(palette: seq<HexColor>): seq<string>
  {
    if palette == [] then []
    else
      var i := |palette| - 1;
      BodyLines(palette[..i]) + [RectLine(i, palette[i]), TextLine(i, palette[i])]
  }

  /** The text the writer produces for `palette`. */
  function Document(palette: seq<HexColor>): string
  {
    HeaderTemplate(SwatchWidth, (SwatchHeight + Spacing) * |palette|, FontSize)
      + JoinLines(BodyLines(palette)) + "</svg>\n"
  }

  /** Appending two lines to a document already holding `lines`. */
  lemma {:induction false} AppendTwoLines(prefix: string, lines: seq<string>, a: string, b: string)
    ensures prefix + JoinLines(lines + [a, b]) == prefix + JoinLines(lines) + a + "\n" + b + "\n"
  {
    JoinLinesAppend(lines, [a, b]);
    assert JoinLines([a, b]) == a + "\n" + JoinLines([b]) by {
      assert [a, b][1..] == [b];
    }
    assert JoinLines([b]) == b + "\n" by {
      assert [b][1..] == [];
    }
  }

  lemma BodyStep(palette: seq<HexColor>, i: nat)
    requires i < |palette|
    ensures BodyLines(palette[..i + 1]) == BodyLines(palette[..i]) + [RectLine(i, palette[i]), TextLine(i, palette[i])]
  {
    var p := palette[..i + 1];
    assert p[..i] == palette[..i] && p[i] == palette[i];
  }

  /** `SvgParser::parse`, lines 11-52: the string it builds before writing it out. */
  method BuildSvgContent(palette: seq<HexColor>) returns (svgContent: string)
    ensures svgContent == Document(palette)
  {
    var swatchWidth, swatchHeight, spacing, fontSize := 100, 60, 10, 14;
    var totalWidth := swatchWidth;
    var totalHeight := (swatchHeight + spacing) * |palette|;
    svgContent := HeaderTemplate(totalWidth, totalHeight, fontSize);
    ghost var header := svgContent;
    for i := 0 to |palette|
      invariant svgContent == header + JoinLines(BodyLines(palette[..i]))
    {
      var color := palette[i];
      var yOffset := i * (swatchHeight + spacing);
      var rect := RectTemplate(yOffset, swatchWidth, swatchHeight, ToHexString(color));
      var text := TextTemplate(5, yOffset + swatchHeight / 2 + fontSize / 2, ToHexString(color));
      BodyStep(palette, i);
      AppendTwoLines(header, BodyLines(palette[..i]), rect, text);
      svgContent := svgContent + rect;
      svgContent := svgContent + "\n";
      svgContent := svgContent + text;
      svgContent := svgContent + "\n";
    }
    assert palette[..|palette|] == palette;
    svgContent := svgContent + "</svg>\n";
  }

  // ---------------------------------------------------------------------------
  // Reading a document back
  // ---------------------------------------------------------------------------

  datatype SvgSize = SvgSize(width: nat, height: nat)
  datatype RectAttrs = RectAttrs(x: nat, y: nat, width: nat, height: nat, fill: string)
  datatype TextAttrs = TextAttrs(x: nat, y: nat, text: string)

  /** The size an opening `<svg ...>` line declares. */
  function ParseSvgOpen(line: string): Option<SvgSize>
  {
    var s0 :- StripPrefix(line, "<svg width=\"");
    var w :- ReadNumber(s0);
    var s1 :- StripPrefix(w.1, "\" height=\"");
    var h :- ReadNumber(s1);
    var s2 :- StripPrefix(h.1, "\" xmlns=\"http://www.w3.org/2000/svg\">");
    if s2 == [] then Some(SvgSize(w.0, h.0)) else None
  }

  /** The font size the `.label` style line sets. */
  function ParseStyle(line: string): Option<nat>
  {
    var s0 :- StripPrefix(line, "                " + ".label { font-family: sans-serif; " + "font-size: ");
    var f :- ReadNumber(s0);
    var s1 :- StripPrefix(f.1, "px; fill: #000; }");
    if s1 == [] then Some(f.0) else None
  }

  /** The attributes of a `<rect .../>` line. */
  function ParseRect(line: string): Option<RectAttrs>
  {
    var s0 :- StripPrefix(line, "<rect x=\"");
    var x :- ReadNumber(s0);
    var s1 :- StripPrefix(x.1, "\" y=\"");
    var y :- ReadNumber(s1);
    var s2 :- StripPrefix(y.1, "\" width=\"");
    var w :- ReadNumber(s2);
    var s3 :- StripPrefix(w.1, "\" height=\"");
    var h :- ReadNumber(s3);
    var s4 :- StripPrefix(h.1, "\" fill=\"");
    var fill := ReadUntil(s4, '"');
    var s5 :- StripPrefix(fill.1, "\" />");
    if s5 == [] then Some(RectAttrs(x.0, y.0, w.0, h.0, fill.0)) else None
  }

  /** The position and body of a `<text ...>...</text>` line. */
  function ParseText(line: string): Option<TextAttrs>
  {
    var s0 :- StripPrefix(line, "<text x=\"");
    var x :- ReadNumber(s0);
    var s1 :- StripPrefix(x.1, "\" y=\"");
    var y :- ReadNumber(s1);
    var s2 :- StripPrefix(y.1, "\" class=\"label\">");
    var body := ReadUntil(s2, '<');
    var s3 :- StripPrefix(body.1, "</text>");
    if s3 == [] then Some(TextAttrs(x.0, y.0, body.0)) else None
  }

  // ---------------------------------------------------------------------------
  // Round trips, line by line
  // ---------------------------------------------------------------------------

  lemma AppendAssoc(a: string, b: string, c: string)
    ensures a + b + c == a + (b + c)
  {
  }

  lemma RectRoundTrip(y: nat, w: nat, h: nat, fill: string)
    requires '"' !in fill
    ensures ParseRect(RectTemplate(y, w, h, fill)) == Some(RectAttrs(0, y, w, h, fill))
  {
    var tail4 := "\" />";
    var t4 := fill + tail4;
    var tail3 := "\" fill=\"" + t4;
    var t3 := Decimal(h) + tail3;
    var tail2 := "\" height=\"" + t3;
    var t2 := Decimal(w) + tail2;
    var tail1 := "\" width=\"" + t2;
    var t1 := Decimal(y) + tail1;
    var tail0 := "\" y=\"" + t1;
    var t0 := Decimal(0) + tail0;
    var p1 := "<rect x=\"0\" y=\"" + Decimal(y);
    var p3 := p1 + "\" width=\"" + Decimal(w);
    var p5 := p3 + "\" height=\"" + Decimal(h);
    var p6 := p5 + "\" fill=\"";
    AppendAssoc(p6, fill, tail4);
    AppendAssoc(p5, "\" fill=\"", t4);
    AppendAssoc(p3 + "\" height=\"", Decimal(h), tail3);
    AppendAssoc(p3, "\" height=\"", t3);
    AppendAssoc(p1 + "\" width=\"", Decimal(w), tail2);
    AppendAssoc(p1, "\" width=\"", t2);
    AppendAssoc("<rect x=\"0\" y=\"", Decimal(y), tail1);
    assert RectTemplate(y, w, h, fill) == "<rect x=\"0\" y=\"" + t1;
    assert Decimal(0) == "0";
    assert "<rect x=\"0\" y=\"" == "<rect x=\"" + "0" + "\" y=\"";
    AppendAssoc("<rect x=\"" + "0", "\" y=\"", t1);
    AppendAssoc("<rect x=\"", "0", tail0);
    assert RectTemplate(y, w, h, fill) == "<rect x=\"" + t0;
    StripLiteral("<rect x=\"", t0);
    ReadDecimal(0, tail0);
    StripLiteral("\" y=\"", t1);
    ReadDecimal(y, tail1);
    StripLiteral("\" width=\"", t2);
    ReadDecimal(w, tail2);
    StripLiteral("\" height=\"", t3);
    ReadDecimal(h, tail3);
    StripLiteral("\" fill=\"", t4);
    ReadText(fill, '"', tail4);
    StripLiteral(tail4, []);
    assert tail4 + [] == tail4;
  }

  lemma TextRoundTrip(x: nat, y: nat, text: string)
    requires '<' !in text
    ensures ParseText(TextTemplate(x, y, text)) == Some(TextAttrs(x, y, text))
  {
    var tail2 := "</text>";
    var t2 := text + tail2;
    var tail1 := "\" class=\"label\">" + t2;
    var t1 := Decimal(y) + tail1;
    var tail0 := "\" y=\"" + t1;
    var t0 := Decimal(x) + tail0;
    assert TextTemplate(x, y, text) == "<text x=\"" + t0;
    StripLiteral("<text x=\"", t0);
    ReadDecimal(x, tail0);
    StripLiteral("\" y=\"", t1);
    ReadDecimal(y, tail1);
    StripLiteral("\" class=\"label\">", t2);
    ReadText(text, '<', tail2);
    StripLiteral(tail2, []);
    assert tail2 + [] == tail2;
  }

  /** The header, one line at a time. */
  function HeaderLines(width: nat, height: nat, fontSize: nat): seq<string>
  {
    [ "<svg width=\"" + Decimal(width) + "\" height=\"" + Decimal(height)
        + "\" xmlns=\"http://www.w3.org/2000/svg\">",
      "             <style>",
      ("                " + ".label { font-family: sans-serif; " + "font-size: ") + Decimal(fontSize)
        + "px; fill: #000; }",
      "             </style>" ]
  }

  lemma {:induction false} JoinFourLines(a: string, b: string, c: string, d: string)
    ensures JoinLines([a, b, c, d]) == (a + "\n") + ((b + "\n") + ((c + "\n") + (d + "\n")))
  {
    var ls := [a, b, c, d];
    assert JoinLines(ls[3..]) == d + "\n" + "" by {
      assert ls[3..][1..] == [];
    }
    assert JoinLines(ls[2..]) == c + "\n" + JoinLines(ls[3..]) by {
      assert ls[2..][1..] == ls[3..];
    }
    assert JoinLines(ls[1..]) == b + "\n" + JoinLines(ls[2..]) by {
      assert ls[1..][1..] == ls[2..];
    }
    assert d + "\n" + "" == d + "\n";
  }

  lemma HeaderIsFourLines(width: nat, height: nat, fontSize: nat)
    ensures HeaderTemplate(width, height, fontSize) == JoinLines(HeaderLines(width, height, fontSize))
  {
    var x := "<svg width=\"" + Decimal(width) + "\" height=\"" + Decimal(height);
    var open := "\" xmlns=\"http://www.w3.org/2000/svg\">";
    var styleLead := "                " + ".label { font-family: sans-serif; " + "font-size: ";
    var y := styleLead + Decimal(fontSize);
    var styleEnd := "px; fill: #000; }";
    JoinFourLines(x + open, "             <style>", y + styleEnd, "             </style>");
    assert x + open + "\n" == x + (open + "\n") by {
      AppendAssoc(x, open, "\n");
    }
    assert y + styleEnd + "\n" == y + (styleEnd + "\n") by {
      AppendAssoc(y, styleEnd, "\n");
    }
    assert open + "\n" == "\" xmlns=\"http://www.w3.org/2000/svg\">\n";
    assert styleEnd + "\n" == "px; fill: #000; }\n";
    assert "             <style>" + "\n" == "             <style>\n";
    assert "             </style>" + "\n" == "             </style>\n";
    var a := x + (open + "\n");
    var b := a + "             <style>\n";
    AppendAssoc(b, styleLead, Decimal(fontSize));
    AppendAssoc(b, y, "px; fill: #000; }\n");
    AppendAssoc(b, y + "px; fill: #000; }\n", "             </style>\n");
    AppendAssoc(a, "             <style>\n", y + "px; fill: #000; }\n" + "             </style>\n");
  }

  lemma SvgOpenRoundTrip(width: nat, height: nat, fontSize: nat)
    ensures ParseSvgOpen(HeaderLines(width, height, fontSize)[0]) == Some(SvgSize(width, height))
  {
    var tail2 := "\" xmlns=\"http://www.w3.org/2000/svg\">";
    var tail1 := "\" height=\"" + (Decimal(height) + tail2);
    var t0 := Decimal(width) + tail1;
    assert HeaderLines(width, height, fontSize)[0] == "<svg width=\"" + t0;
    StripLiteral("<svg width=\"", t0);
    ReadDecimal(width, tail1);
    StripLiteral("\" height=\"", Decimal(height) + tail2);
    ReadDecimal(height, tail2);
    StripLiteral(tail2, []);
    assert tail2 + [] == tail2;
  }

  lemma StyleRoundTrip(width: nat, height: nat, fontSize: nat)
    ensures ParseStyle(HeaderLines(width, height, fontSize)[2]) == Some(fontSize)
  {
    var lit := "                " + ".label { font-family: sans-serif; " + "font-size: ";
    var tail := "px; fill: #000; }";
    assert HeaderLines(width, height, fontSize)[2] == lit + (Decimal(fontSize) + tail);
    StripLiteral(lit, Decimal(fontSize) + tail);
    ReadDecimal(fontSize, tail);
    StripLiteral(tail, []);
    assert tail + [] == tail;
  }

  // ---------------------------------------------------------------------------
  // The whole document
  // ---------------------------------------------------------------------------

  /** Entry `i` sits at lines 2i and 2i+1 of the body, at vertical offset 70 * i. */
  lemma {:induction false} BodyLinesAt(palette: seq<HexColor>)
    ensures |BodyLines(palette)| == 2 * |palette|
    ensures forall i :: 0 <= i < |palette| ==>
      BodyLines(palette)[2 * i] == RectLine(i, palette[i])
      && BodyLines(palette)[2 * i + 1] == TextLine(i, palette[i])
  {
    if palette != [] {
      var n := |palette| - 1;
      var front := BodyLines(palette[..n]);
      var body := front + [RectLine(n, palette[n]), TextLine(n, palette[n])];
      BodyLinesAt(palette[..n]);
      assert BodyLines(palette) == body;
      forall i | 0 <= i < |palette|
        ensures body[2 * i] == RectLine(i, palette[i])
        ensures body[2 * i + 1] == TextLine(i, palette[i])
      {
        if i < n {
          assert palette[..n][i] == palette[i];
          assert body[2 * i] == front[2 * i] && body[2 * i + 1] == front[2 * i + 1];
        }
      }
    }
  }

  /** The lines of the document, without their newlines. */
  function DocumentLines(palette: seq<HexColor>): seq<string>
  {
    HeaderLines(SwatchWidth, (SwatchHeight + Spacing) * |palette|, FontSize) + BodyLines(palette) + ["</svg>"]
  }

  lemma DocumentIsLines(palette: seq<HexColor>)
    ensures Document(palette) == JoinLines(DocumentLines(palette))
  {
    var header := HeaderLines(SwatchWidth, (SwatchHeight + Spacing) * |palette|, FontSize);
    var body := BodyLines(palette);
    HeaderIsFourLines(SwatchWidth, (SwatchHeight + Spacing) * |palette|, FontSize);
    JoinLinesAppend(header + body, ["</svg>"]);
    JoinLinesAppend(header, body);
    assert JoinLines(["</svg>"]) == "</svg>" + "\n" + "" by {
      assert ["</svg>"][1..] == [];
    }
    assert "</svg>" + "\n" + "" == "</svg>\n";
  }

  lemma HexStringPlain(c: HexColor)
    ensures '"' !in ToHexString(c) && '<' !in ToHexString(c) && '\n' !in ToHexString(c)
  {
    var s := ToHexString(c);
    forall i | 0 <= i < |s|
      ensures s[i] != '"' && s[i] != '<' && s[i] != '\n'
    {
      if i > 0 {
        assert IsUpperHexDigit(s[i]);
      }
    }
  }

  lemma DecimalPlain(n: nat)
    ensures '\n' !in Decimal(n)
  {
    var s := Decimal(n);
    forall i | 0 <= i < |s|
      ensures s[i] != '\n'
    {
      assert IsDigit(s[i]);
    }
  }

  lemma SwatchLinesPlain(i: nat, color: HexColor)
    ensures '\n' !in RectLine(i, color) && '\n' !in TextLine(i, color)
  {
    HexStringPlain(color);
    DecimalPlain(0);
    DecimalPlain(YOffset(i));
    DecimalPlain(SwatchWidth);
    DecimalPlain(SwatchHeight);
    DecimalPlain(LabelX);
    DecimalPlain(YOffset(i) + SwatchHeight / 2 + FontSize / 2);
  }

  lemma {:induction false} BodyLinesPlain(palette: seq<HexColor>)
    ensures NoNewlines(BodyLines(palette))
  {
    if palette != [] {
      var n := |palette| - 1;
      BodyLinesPlain(palette[..n]);
      SwatchLinesPlain(n, palette[n]);
      NoNewlinesAppend(BodyLines(palette[..n]), [RectLine(n, palette[n]), TextLine(n, palette[n])]);
    }
  }

  lemma NoNewlinesAppend(a: seq<string>, b: seq<string>)
    requires NoNewlines(a) && NoNewlines(b)
    ensures NoNewlines(a + b)
  {
    forall k | 0 <= k < |a + b|
      ensures '\n' !in (a + b)[k]
    {
      if k >= |a| {
        assert (a + b)[k] == b[k - |a|];
      }
    }
  }

  lemma HeaderLinesPlain(width: nat, height: nat, fontSize: nat)
    ensures NoNewlines(HeaderLines(width, height, fontSize))
  {
    var ls := HeaderLines(width, height, fontSize);
    DecimalPlain(width);
    DecimalPlain(height);
    DecimalPlain(fontSize);
    assert '\n' !in ls[0];
    assert '\n' !in ls[1];
    assert '\n' !in "                " + ".label { font-family: sans-serif; " + "font-size: ";
    assert '\n' !in "px; fill: #000; }";
    assert '\n' !in ls[2];
    assert '\n' !in ls[3];
  }

  lemma DocumentLinesPlain(palette: seq<HexColor>)
    ensures NoNewlines(DocumentLines(palette))
  {
    var header := HeaderLines(SwatchWidth, (SwatchHeight + Spacing) * |palette|, FontSize);
    HeaderLinesPlain(SwatchWidth, (SwatchHeight + Spacing) * |palette|, FontSize);
    BodyLinesPlain(palette);
    NoNewlinesAppend(header, BodyLines(palette));
    NoNewlinesAppend(header + BodyLines(palette), ["</svg>"]);
  }

  /** Splitting the document at its newlines gives the header, two lines per entry and the closing tag. */
  lemma DocumentSplits(palette: seq<HexColor>)
    ensures SplitLines(Document(palette)) == DocumentLines(palette)
  {
    DocumentIsLines(palette);
    DocumentLinesPlain(palette);
    SplitJoinLines(DocumentLines(palette));
  }

  /** The colour a rect line and its text line describe, entry `i` of the palette; the two must agree. */
  function ReadSwatch(i: nat, rectLine: string, textLine: string): Option<HexColor>
  {
    var rect :- ParseRect(rectLine);
    var text :- ParseText(textLine);
    if rect == RectAttrs(0, YOffset(i), SwatchWidth, SwatchHeight, text.text)
      && text.x == LabelX && text.y == YOffset(i) + SwatchHeight / 2 + FontSize / 2
    then ParseHexString(text.text)
    else None
  }

  /** The palette a body describes, two lines per entry. */
  function ReadSwatches(body: seq<string>): Option<seq<HexColor>>
    decreases |body|
  {
    if body == [] then Some([])
    else if |body| < 2 then None
    else
      var n := |body| - 2;
      var front :- ReadSwatches(body[..n]);
      var color :- ReadSwatch(n / 2, body[n], body[n + 1]);
      Some(front + [color])
  }

  /** The palette a whole document describes, when it is laid out as the writer lays it out. */
  function ReadDocument(doc: string): Option<seq<HexColor>>
  {
    var lines := SplitLines(doc);
    if |lines| < 5 then None
    else
      var size :- ParseSvgOpen(lines[0]);
      var fontSize :- ParseStyle(lines[2]);
      if lines[1] != "             <style>" || lines[3] != "             </style>"
        || lines[|lines| - 1] != "</svg>" || size.width != SwatchWidth || fontSize != FontSize
      then None
      else
        var palette :- ReadSwatches(lines[4..|lines| - 1]);
        if size.height == (SwatchHeight + Spacing) * |palette| then Some(palette) else None
  }

  lemma SwatchRoundTrip(i: nat, color: HexColor)
    ensures ReadSwatch(i, RectLine(i, color), TextLine(i, color)) == Some(color)
  {
    HexStringPlain(color);
    RectRoundTrip(YOffset(i), SwatchWidth, SwatchHeight, ToHexString(color));
    TextRoundTrip(LabelX, YOffset(i) + SwatchHeight / 2 + FontSize / 2, ToHexString(color));
    HexStringRoundTrip(color);
  }

  lemma ReadSwatchesStep(front: seq<string>, rectLine: string, textLine: string, color: HexColor)
    requires ReadSwatches(front).Some? && ReadSwatch(|front| / 2, rectLine, textLine) == Some(color)
    ensures ReadSwatches(front + [rectLine, textLine]) == Some(ReadSwatches(front).value + [color])
  {
    var body := front + [rectLine, textLine];
    assert body[..|front|] == front;
    assert body[|front|] == rectLine && body[|front| + 1] == textLine;
  }

  lemma {:induction false} SwatchesRoundTrip(palette: seq<HexColor>)
    ensures ReadSwatches(BodyLines(palette)) == Some(palette)
  {
    if palette != [] {
      var n := |palette| - 1;
      var front := BodyLines(palette[..n]);
      BodyLinesAt(palette[..n]);
      SwatchesRoundTrip(palette[..n]);
      assert |front| / 2 == n;
      SwatchRoundTrip(n, palette[n]);
      ReadSwatchesStep(front, RectLine(n, palette[n]), TextLine(n, palette[n]), palette[n]);
      assert palette[..n] + [palette[n]] == palette;
    }
  }

  /** Reading the written document gives back the palette. */
  lemma DocumentRoundTrip(palette: seq<HexColor>)
    ensures ReadDocument(Document(palette)) == Some(palette)
  {
    var lines := DocumentLines(palette);
    var height := (SwatchHeight + Spacing) * |palette|;
    DocumentSplits(palette);
    BodyLinesAt(palette);
    SvgOpenRoundTrip(SwatchWidth, height, FontSize);
    StyleRoundTrip(SwatchWidth, height, FontSize);
    assert lines[4..|lines| - 1] == BodyLines(palette);
    SwatchesRoundTrip(palette);
  }

  lemma BodyLineIndex(header: seq<string>, body: seq<string>, k: nat)
    requires |header| == 4 && k < |body|
    ensures (header + body + ["</svg>"])[4 + k] == body[k]
  {
  }

  lemma SwatchLinesAt(palette: seq<HexColor>, i: nat)
    requires i < |palette|
    ensures var lines := DocumentLines(palette);
      && |lines| == 2 * |palette| + 5
      && ParseRect(lines[4 + 2 * i]) == Some(RectAttrs(0, 70 * i, 100, 60, ToHexString(palette[i])))
      && ParseText(lines[5 + 2 * i]) == Some(TextAttrs(5, 70 * i + 37, ToHexString(palette[i])))
  {
    var header := HeaderLines(SwatchWidth, (SwatchHeight + Spacing) * |palette|, FontSize);
    var body := BodyLines(palette);
    var hex := ToHexString(palette[i]);
    BodyLinesAt(palette);
    HexStringPlain(palette[i]);
    assert YOffset(i) == 70 * i;
    assert body[2 * i] == RectTemplate(70 * i, 100, 60, hex);
    assert body[2 * i + 1] == TextTemplate(5, 70 * i + 37, hex);
    RectRoundTrip(70 * i, 100, 60, hex);
    TextRoundTrip(5, 70 * i + 37, hex);
    BodyLineIndex(header, body, 2 * i);
    BodyLineIndex(header, body, 2 * i + 1);
  }

  lemma HeaderLinesAt(palette: seq<HexColor>)
    ensures var lines := DocumentLines(palette);
      && |lines| == 2 * |palette| + 5
      && ParseSvgOpen(lines[0]) == Some(SvgSize(100, 70 * |palette|))
      && lines[1] == "             <style>"
      && ParseStyle(lines[2]) == Some(14)
      && lines[3] == "             </style>"
      && lines[|lines| - 1] == "</svg>"
  {
    var height := (SwatchHeight + Spacing) * |palette|;
    BodyLinesAt(palette);
    SvgOpenRoundTrip(SwatchWidth, height, FontSize);
    StyleRoundTrip(SwatchWidth, height, FontSize);
  }

  /**
   * What a reader finds line by line: a 100-wide document 70 * n high with a
   * 14px label font, then for entry i a 100 x 60 rect at y = 70 * i filled
   * with the entry's hex string and a text at (5, 70 * i + 37) showing the
   * same string, then the closing tag.
   */
  lemma DocumentLayout(palette: seq<HexColor>)
    ensures var lines := SplitLines(Document(palette));
      && |lines| == 2 * |palette| + 5
      && ParseSvgOpen(lines[0]) == Some(SvgSize(100, 70 * |palette|))
      && lines[1] == "             <style>"
      && ParseStyle(lines[2]) == Some(14)
      && lines[3] == "             </style>"
      && lines[|lines| - 1] == "</svg>"
      && forall i :: 0 <= i < |palette| ==>
           ParseRect(lines[4 + 2 * i]) == Some(RectAttrs(0, 70 * i, 100, 60, ToHexString(palette[i])))
           && ParseText(lines[5 + 2 * i]) == Some(TextAttrs(5, 70 * i + 37, ToHexString(palette[i])))
  {
    DocumentSplits(palette);
    HeaderLinesAt(palette);
    forall i | 0 <= i < |palette|
      ensures ParseRect(DocumentLines(palette)[4 + 2 * i])
        == Some(RectAttrs(0, 70 * i, 100, 60, ToHexString(palette[i])))
      ensures ParseText(DocumentLines(palette)[5 + 2 * i])
        == Some(TextAttrs(5, 70 * i + 37, ToHexString(palette[i])))
    {
      SwatchLinesAt(palette, i);
    }
  }
}
