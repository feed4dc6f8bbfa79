/** The earlier descriptor writer, `BMFontPacker.processFnt`: it writes the render count as `aa`, the
    padding as top, bottom, left, right, copies the glyph rectangles and offsets as the rasterizer left
    them, gives the id column five characters, has no `metrics` record, and closes the `font` element
    only inside the kerning branch. */
module LegacyFntWriter {
  import opened JavaText
  import opened Utils
  import opened Config
  import opened Glyphs
  import opened FntMarkup
  import FntWriter

  /** What the writer reads of the rasterizer's `BitmapFontData`: the line height and the base are
      floats, appended as the texts `Float.toString` yields for them; the base text is that of
      `capHeight - ascent` in a flipped font and of `capHeight + ascent` otherwise. */
  datatype FontData = FontData(lineHeight: string, base: string, flipped: bool, glyphs: GlyphTable)

  /** The `char` record of `g`: the rectangle and the x offset as they are; the y offset as it is in a
      flipped font, otherwise the negated `int` sum of the height and the y offset. */
  function CharRecordOf(g: Glyph, flipped: bool): (r: CharRecord)
    ensures r.id == g.id && r.xadvance == g.xadvance && r.page == g.page
    ensures r.x == g.srcX && r.y == g.srcY && r.width == g.width && r.height == g.height
    ensures r.xoffset == g.xoffset
    ensures flipped ==> r.yoffset == g.yoffset
  {
    CharRecord(g.id, g.srcX, g.srcY, g.width, g.height, g.xoffset,
      if flipped then g.yoffset else Wrap32(-(Wrap32(g.height + g.yoffset) as int)),
      g.xadvance, g.page)
  }

  /** In an upright font, negating the record's y offset and taking off the height gives the glyph's. */
  lemma CharRecordYOffsetInvertible(g: Glyph)
    ensures Wrap32(-(CharRecordOf(g, false).yoffset as int) - g.height) == g.yoffset
  {
    assert Wrap32(g.yoffset + 0) == g.yoffset;
    FntWriter.UnflipInverse(g.yoffset, g.height, 0, CharRecordOf(g, false).yoffset);
  }

  /** For a glyph with an area, the record is the one the current writer makes with no padding. */
  lemma CharRecordIsUnpadded(g: Glyph, flipped: bool)
    requires g.width != 0 && g.height != 0
    ensures CharRecordOf(g, flipped) == FntWriter.CharRecordOf(g, 0, 0, flipped)
  {
    assert Wrap32(g.yoffset + 0) == g.yoffset;
    assert Wrap32(g.xoffset - 0) == g.xoffset;
  }

  /** The records of a glyph list, in list order. */
  function CharRecords(gs: seq<Glyph>, flipped: bool): (rs: seq<CharRecord>)
    ensures |rs| == |gs|
  {
    seq(|gs|, k requires 0 <= k < |gs| => CharRecordOf(gs[k], flipped))
  }

  /** The `info` values the writer takes from the settings: `aa` is the render count and the padding is
      listed top, bottom, left, right. */
  function InfoOf(settings: Configuration, face: string): (info: Info)
    reads settings
    ensures info.padding == [settings.padTop, settings.padBottom, settings.padLeft, settings.padRight]
    ensures info.spacing == [settings.spaceX, settings.spaceY]
    ensures info.smooth == !settings.mono && info.aa == settings.renderCount
  {
    Info(face, settings.size, settings.bold, settings.italic, settings.charset, settings.unicode,
      settings.stretchH, !settings.mono, settings.renderCount,
      [settings.padTop, settings.padBottom, settings.padLeft, settings.padRight], [settings.spaceX, settings.spaceY])
  }

  /** The two writers fill the `info` record alike except for `aa` and the order of the padding. */
  lemma InfoAgainstCurrent(settings: Configuration, face: string)
    ensures InfoOf(settings, face)
         == FntWriter.InfoOf(settings, face).(
              aa := settings.renderCount,
              padding := [settings.padTop, settings.padBottom, settings.padLeft, settings.padRight])
  {
  }

  /** What closes the text: `</font>` in the XML dialect, but only when the kerning branch runs. */
  function Closing(xml: bool, kerning: bool): string
  {
    if kerning then FntWriter.Footer(xml) else ""
  }

  /** What the writer lays out, with every value already taken from the settings and the font data. */
  datatype Descriptor = Descriptor(
    xml: bool, info: Info, lineHeight: string, base: string, scaleW: int32, scaleH: int32, pages: seq<string>,
    chars: seq<CharRecord>, kerning: bool, kernings: seq<KernPair>)

  /** The record blocks of a descriptor, in the order the writer appends them. */
  function Records(d: Descriptor): seq<string>
  {
    [InfoLine(d.xml, d.info),
     CommonLine(d.xml, d.lineHeight, d.base, d.scaleW, d.scaleH, |d.pages|),
     PagesBlock(d.xml, d.pages),
     CharsBlock(d.xml, d.chars, 5),
     FntWriter.KerningsBlock(d.xml, d.kerning, d.kernings)]
  }

  /** Everything the writer appends, one append after another. */
  function Sections(d: Descriptor): seq<string>
  {
    [FntWriter.Header(d.xml)] + [InfoLine(d.xml, d.info)]
    + [CommonLine(d.xml, d.lineHeight, d.base, d.scaleW, d.scaleH, |d.pages|)]
    + [PagesBlock(d.xml, d.pages)] + [CharsBlock(d.xml, d.chars, 5)]
    + [FntWriter.KerningsBlock(d.xml, d.kerning, d.kernings)] + [Closing(d.xml, d.kerning)]
  }

  /** Seven appends, regrouped as the first, the five in between and the last. */
  lemma Regroup(a: string, b: string, c: string, d: string, e: string, f: string, g: string)
    ensures [a] + [b] + [c] + [d] + [e] + [f] + [g] == [a] + [b, c, d, e, f] + [g]
  {
  }

  /** The sections are the record blocks between the header and what closes the text. */
  lemma SectionsFramed(d: Descriptor)
    ensures Sections(d) == [FntWriter.Header(d.xml)] + Records(d) + [Closing(d.xml, d.kerning)]
  {
    Regroup(FntWriter.Header(d.xml), InfoLine(d.xml, d.info),
      CommonLine(d.xml, d.lineHeight, d.base, d.scaleW, d.scaleH, |d.pages|),
      PagesBlock(d.xml, d.pages), CharsBlock(d.xml, d.chars, 5),
      FntWriter.KerningsBlock(d.xml, d.kerning, d.kernings), Closing(d.xml, d.kerning));
  }

  function Body(d: Descriptor): string
  {
    Joined(Records(d))
  }

  /** The text of a descriptor. */
  function Render(d: Descriptor): string
  {
    Joined(Sections(d))
  }

  /** The descriptor for the page files `pageNames` and a descriptor file called `fntName`, whose name
      without extension is the face. */
  function DescriptorOf(settings: Configuration, data: FontData, pageNames: seq<string>, fntName: string)
    : Descriptor
    reads settings
  {
    var glyphs := Flatten(data.glyphs);
    Descriptor(FntWriter.IsXml(settings.fntFormat), InfoOf(settings, NameWithoutExtension(fntName)),
      data.lineHeight, data.base, settings.pageWidth, settings.pageHeight, pageNames,
      CharRecords(glyphs, data.flipped), settings.kerning, Kernings(glyphs))
  }

  /** The text the writer produces. */
  function Document(settings: Configuration, data: FontData, pageNames: seq<string>, fntName: string): string
    reads settings
  {
    Render(DescriptorOf(settings, data, pageNames, fntName))
  }

  /** `processFnt`: takes the face from the file name, the dialect and the `info` values from the
      settings, hands the builder the header, the `info` and `common` records, the page and char blocks
      and, when kerning is on, the kerning block and the end of the `font` element; the text is written
      in the platform's default charset. */
  method ProcessFnt(data: FontData, pageNames: seq<string>, fntName: string, settings: Configuration)
    returns (text: string)
    ensures text == Document(settings, data, pageNames, fntName)
  {
    var xml := FntWriter.IsXml(settings.fntFormat);
    var info := InfoOf(settings, NameWithoutExtension(fntName));
    var glyphs := CollectGlyphs(data.glyphs);
    var pieces := WriteDescriptor(xml, info, data.lineHeight, data.base, settings.pageWidth, settings.pageHeight,
                                  pageNames, glyphs, data.flipped, settings.kerning);
    assert Descriptor(xml, info, data.lineHeight, data.base, settings.pageWidth, settings.pageHeight, pageNames,
                      CharRecords(glyphs, data.flipped), settings.kerning, Kernings(glyphs))
        == DescriptorOf(settings, data, pageNames, fntName);
    text := Joined(pieces);
  }

  /** The appends of `processFnt`. */
  method WriteDescriptor(xml: bool, info: Info, lineHeight: string, base: string, scaleW: int32, scaleH: int32,
                         pageNames: seq<string>, glyphs: seq<Glyph>, flipped: bool, kerning: bool)
    returns (pieces: seq<string>)
    ensures pieces == Sections(Descriptor(xml, info, lineHeight, base, scaleW, scaleH, pageNames,
                                          CharRecords(glyphs, flipped), kerning, Kernings(glyphs)))
  {
    pieces := [FntWriter.Header(xml)];
    pieces := pieces + [InfoLine(xml, info)];
    pieces := pieces + [CommonLine(xml, lineHeight, base, scaleW, scaleH, |pageNames|)];
    pieces := FntWriter.AppendPages(pieces, xml, pageNames);
    pieces := AppendChars(pieces, xml, glyphs, flipped);
    pieces := AppendKernings(pieces, xml, kerning, glyphs);
  }

  /** The char loop: the count, then one record per glyph in list order with a five-character id
      column, closed in XML. */
  method AppendChars(pieces0: seq<string>, xml: bool, glyphs: seq<Glyph>, flipped: bool)
    returns (pieces: seq<string>)
    ensures pieces == pieces0 + [CharsBlock(xml, CharRecords(glyphs, flipped), 5)]
  {
    var records := CharRecords(glyphs, flipped);
    var lines: seq<string> := [];
    var i := 0;
    while i < |records|
      invariant 0 <= i <= |records|
      invariant lines == CharLineList(xml, records[..i], 5)
    {
      CharLineListSnoc(xml, records, i, 5);
      lines := lines + [CharLine(xml, records[i], 5)];
      i := i + 1;
    }
    assert records[..i] == records;
    pieces := pieces0 + [CountLine(xml, "chars", |glyphs|) + Joined(lines) + XmlLine(xml, "/chars")];
  }

  /** The kerning branch, run only when kerning is on: the count record, the records and, in XML, the
      closing `kernings` tag followed by the closing `font` tag. */
  method AppendKernings(pieces0: seq<string>, xml: bool, on: bool, glyphs: seq<Glyph>)
    returns (pieces: seq<string>)
    ensures pieces == pieces0 + [FntWriter.KerningsBlock(xml, on, Kernings(glyphs))] + [Closing(xml, on)]
  {
    if on {
      var kernCount, kernBuf := ScanKernings(xml, glyphs);
      pieces := pieces0 + [CountLine(xml, "kernings", kernCount) + kernBuf + XmlLine(xml, "/kernings")];
      pieces := pieces + [if xml then "</font>" else ""];
    } else {
      pieces := pieces0 + [""] + [""];
    }
  }

  // ---------------------------------------------------------------- what the descriptor holds

  /** The descriptor takes the dialect, the glyph records, the pages and the kerning switch from the
      inputs: XML iff the format is `xml` in any case, one record per non-null table entry, one page
      record per page file, and the kerning pairs of every ordered pair of glyphs with a non-zero amount. */
  lemma DescriptorOfFacts(settings: Configuration, data: FontData, pageNames: seq<string>, fntName: string)
    ensures DescriptorOf(settings, data, pageNames, fntName).xml <==> ToLower(settings.fntFormat) == "xml"
    ensures |DescriptorOf(settings, data, pageNames, fntName).chars| == GlyphCount(data.glyphs)
    ensures DescriptorOf(settings, data, pageNames, fntName).pages == pageNames
    ensures DescriptorOf(settings, data, pageNames, fntName).kerning == settings.kerning
    ensures DescriptorOf(settings, data, pageNames, fntName).kernings
         == NonZero(Concat(Matrix(Flatten(data.glyphs), Flatten(data.glyphs))))
  {
    EqualsIgnoreCaseIsLowerEquality(settings.fntFormat, "xml");
    assert ToLower("xml") == "xml";
    FlattenCount(data.glyphs);
    KerningsAreNonZeroPairs(Flatten(data.glyphs));
  }

  // ---------------------------------------------------------------- framing

  /** With kerning on, an XML descriptor is one `font` element: `<font>` on a line of its own, the
      records, and `</font>` with no line break after it. */
  lemma RenderXmlKerningFraming(d: Descriptor)
    requires d.xml && d.kerning
    ensures Render(d) == "<font>\n" + Body(d) + "</font>"
  {
    SectionsFramed(d);
    JoinedFramed(FntWriter.Header(d.xml), Records(d), Closing(d.xml, d.kerning));
  }

  /** A text descriptor is its records alone, with or without kerning. */
  lemma RenderText(d: Descriptor)
    requires !d.xml
    ensures Render(d) == Body(d)
  {
    SectionsFramed(d);
    JoinedFramed(FntWriter.Header(d.xml), Records(d), Closing(d.xml, d.kerning));
    assert FntWriter.Header(d.xml) == [] && Closing(d.xml, d.kerning) == [];
  }

  /** `p` opens `s`. */
  predicate StartsWith(s: string, p: string)
  {
    |p| <= |s| && s[..|p|] == p
  }

  /** `t` closes `s`. */
  predicate EndsWith(s: string, t: string)
  {
    |t| <= |s| && s[|s| - |t|..] == t
  }

  /** As written, an XML descriptor without kerning opens a `font` element and never closes it: the
      text begins with `<font>` and its last line is the closing `chars` tag. */
  lemma XmlWithoutKerningUnclosed(d: Descriptor)
    requires d.xml && !d.kerning
    ensures StartsWith(Render(d), "<font>\n")
    ensures EndsWith(Render(d), "\t</chars>\n")
  {
    var info := InfoLine(d.xml, d.info);
    var common := CommonLine(d.xml, d.lineHeight, d.base, d.scaleW, d.scaleH, |d.pages|);
    var pages := PagesBlock(d.xml, d.pages);
    var chars := CharsBlock(d.xml, d.chars, 5);
    SectionsFramed(d);
    JoinedFramed(FntWriter.Header(d.xml), Records(d), Closing(d.xml, d.kerning));
    assert Records(d) == [info, common, pages, chars, ""];
    JoinedLastEmpty(info, common, pages, chars);
    ClosingCharsTag();
    Affixes("<font>\n", Joined([info, common, pages]), CountLine(d.xml, "chars", |d.chars|),
      CharLines(d.xml, d.chars, 5), XmlLine(d.xml, "/chars"));
  }

  lemma ClosingCharsTag()
    ensures XmlLine(true, "/chars") == "\t</chars>\n"
  {
  }

  /** Four blocks and an empty one are joined as the first three and then the fourth. */
  lemma JoinedLastEmpty(a: string, b: string, c: string, e: string)
    ensures Joined([a, b, c, e, ""]) == Joined([a, b, c]) + e
  {
    assert [a, b, c, e] + [""] == [a, b, c, e, ""];
    JoinedSnoc([a, b, c, e], "");
    assert [a, b, c] + [e] == [a, b, c, e];
    JoinedSnoc([a, b, c], e);
  }

  /** The header opens and the last line closes what is assembled between them. */
  lemma Affixes(h: string, front: string, count: string, lines: string, t: string)
    ensures StartsWith(h + (front + (count + lines + t)) + "", h)
    ensures EndsWith(h + (front + (count + lines + t)) + "", t)
  {
    var s := h + (front + (count + lines + t)) + "";
    assert s == h + (front + count + lines) + t;
    assert s[..|h|] == h;
    assert s[|s| - |t|..] == t;
  }

  /** The sections as intended: the `font` element closed in the XML dialect whether or not kerning is
      on. */
  function CorrectedSections(d: Descriptor): seq<string>
  {
    [FntWriter.Header(d.xml)] + Records(d) + [FntWriter.Footer(d.xml)]
  }

  function CorrectedRender(d: Descriptor): string
  {
    Joined(CorrectedSections(d))
  }

  /** With the closing tag outside the kerning branch every XML descriptor is one `font` element, and
      the text dialect is unchanged. */
  lemma CorrectedRenderFraming(d: Descriptor)
    ensures d.xml ==> CorrectedRender(d) == "<font>\n" + Body(d) + "</font>"
    ensures !d.xml ==> CorrectedRender(d) == Render(d)
  {
    JoinedFramed(FntWriter.Header(d.xml), Records(d), FntWriter.Footer(d.xml));
    if !d.xml {
      RenderText(d);
    }
  }

  // ---------------------------------------------------------------- the id column

  /** As written, a five-digit character code fills the five-character id column of the text dialect
      and runs straight into the next key: `char id=20013x=`. */
  lemma FiveDigitIdRunsIntoX(r: CharRecord)
    requires r.id == 20013
    ensures CharPieces(false, r, 5)[2..5] == ["char id=", "20013", "x="]
  {
    assert IntToString(20013) == "20013";
  }

  /** Ten to the power `k`. */
  function Pow10(k: nat): (p: nat)
    ensures p >= 1
  {
    if k == 0 then 1 else 10 * Pow10(k - 1)
  }

  /** A number below 10^k has at most k digits (and at least one). */
  lemma {:induction false} NatToStringLength(n: nat, k: nat)
    requires 0 < k && n < Pow10(k)
    ensures |NatToString(n)| <= k
  {
    if n >= 10 {
      NatToStringLength(n / 10, k - 1);
    }
  }

  /** With the six-character id column of the current writer every character code (0 to 65535) is
      followed by at least one space in the text dialect, so the id never runs into `x=`. */
  lemma CorrectedIdColumnSeparated(id: int32)
    requires 0 <= id <= 0xFFFF
    ensures |Column(false, id, 6)| == 6 && Column(false, id, 6)[5] == ' '
  {
    assert Pow10(5) == 100000;
    NatToStringLength(id, 5);
    TextColumnSeparation(id, 6);
    PadRightShape(IntToString(id), 6);
  }

  // ---------------------------------------------------------------- no markup in the text dialect

  /** The texts a descriptor copies from its inputs (face, charset, float texts, page file names) all
      lack `c`. */
  predicate InputsWithout(c: char, d: Descriptor)
  {
    c !in d.info.face && c !in CharsetText(d.info.charset) && c !in d.lineHeight && c !in d.base
    && forall k :: 0 <= k < |d.pages| ==> c !in d.pages[k]
  }

  /** A text descriptor holds no angle bracket, and so no tag, unless one of its inputs brings one. */
  lemma RenderTextHasNoTags(d: Descriptor)
    requires !d.xml && InputsWithout('<', d)
    ensures '<' !in Render(d)
  {
    RenderText(d);
    InfoLineHasNo('<', d.xml, d.info);
    CommonBodyHasNo('<', d.xml, d.lineHeight, d.base, d.scaleW, d.scaleH, |d.pages|);
    PagesBlockHasNo('<', d.xml, d.pages);
    CharsBlockHasNo('<', d.xml, d.chars, 5);
    FntWriter.KerningsBlockHasNo('<', d.xml, d.kerning, d.kernings);
    FiveHaveNo('<', InfoLine(d.xml, d.info), CommonLine(d.xml, d.lineHeight, d.base, d.scaleW, d.scaleH, |d.pages|),
      PagesBlock(d.xml, d.pages), CharsBlock(d.xml, d.chars, 5), FntWriter.KerningsBlock(d.xml, d.kerning, d.kernings));
  }

  /** Five record blocks without `c` are joined without it. */
  lemma FiveHaveNo(c: char, b1: string, b2: string, b3: string, b4: string, b5: string)
    requires c !in b1 && c !in b2 && c !in b3 && c !in b4 && c !in b5
    ensures c !in Joined([b1, b2, b3, b4, b5])
  {
    JoinedHasNo(c, [b1, b2, b3, b4, b5]);
  }
}
