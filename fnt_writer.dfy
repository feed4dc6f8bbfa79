/** The current descriptor writer, `BitmapFontPacker.processFnt`: it derives the anti-aliasing level from
    the hinting, zeroes the rectangle of empty glyphs, corrects the offsets by the padding, writes the
    padding as top, right, bottom, left and ends with a `metrics` record. */
module FntWriter {
  import opened Wrappers
  import opened JavaText
  import opened Utils
  import opened Config
  import opened Glyphs
  import opened FntMarkup

  /** The seven float metrics of the font, each as the text `Float.toString` yields for it. */
  datatype Metrics = Metrics(
    ascent: string, descent: string, down: string, capHeight: string, lineHeight: string,
    spaceXAdvance: string, xHeight: string)

  /** What the writer reads of the rasterizer's `BitmapFontData`: the line height and base already
      rounded to `int`, whether the font is flipped, the glyph table and the metrics. */
  datatype FontData = FontData(lineHeight: int32, base: int32, flipped: bool, glyphs: GlyphTable, metrics: Metrics)

  /** The `aa` value: the strength of the hinting, where an automatic variant counts as the manual one. */
  function AntiAliasLevel(h: Hinting): (aa: int32)
    ensures 0 <= aa <= 3
    ensures aa == 0 <==> h == Hinting.None
    ensures aa == 1 <==> h == Slight || h == AutoSlight
    ensures aa == 2 <==> h == Medium || h == AutoMedium
    ensures aa == 3 <==> h == Full || h == AutoFull
  {
    match h
    case None => 0
    case Slight | AutoSlight => 1
    case Medium | AutoMedium => 2
    case Full | AutoFull => 3
  }

  /** The `char` record of `g`: a glyph without area gets an all-zero rectangle, the x offset loses the
      left padding and the y offset gains the top padding, negated around the raw height unless the font
      is flipped; every sum is an `int` sum. */
  function CharRecordOf(g: Glyph, padLeft: int32, padTop: int32, flipped: bool): (r: CharRecord)
    ensures r.id == g.id && r.xadvance == g.xadvance && r.page == g.page
    ensures (g.width == 0 || g.height == 0) ==> r.x == 0 && r.y == 0 && r.width == 0 && r.height == 0
    ensures (g.width != 0 && g.height != 0) ==>
              r.x == g.srcX && r.y == g.srcY && r.width == g.width && r.height == g.height
  {
    var empty := g.width == 0 || g.height == 0;
    CharRecord(
      g.id,
      if empty then 0 else g.srcX,
      if empty then 0 else g.srcY,
      if empty then 0 else g.width,
      if empty then 0 else g.height,
      Wrap32(g.xoffset - padLeft),
      if flipped then Wrap32(g.yoffset + padTop) else Wrap32(-(Wrap32(g.height + Wrap32(g.yoffset + padTop)) as int)),
      g.xadvance,
      g.page)
  }

  /** The padding correction of the x offset can be undone: adding the left padding back to the
      record's x offset gives the glyph's. */
  lemma CharRecordXOffsetInvertible(g: Glyph, padLeft: int32, padTop: int32, flipped: bool)
    ensures Wrap32(CharRecordOf(g, padLeft, padTop, flipped).xoffset + padLeft) == g.xoffset
  {
    var r := CharRecordOf(g, padLeft, padTop, flipped);
    WrapBack(g.xoffset, g.xoffset - padLeft, r.xoffset, r.xoffset + padLeft);
  }

  /** In a flipped font, taking the top padding off the record's y offset gives the glyph's. */
  lemma CharRecordYOffsetInvertibleFlipped(g: Glyph, padLeft: int32, padTop: int32)
    ensures Wrap32(CharRecordOf(g, padLeft, padTop, true).yoffset - padTop) == g.yoffset
  {
    var r := CharRecordOf(g, padLeft, padTop, true);
    WrapBack(g.yoffset, g.yoffset + padTop, r.yoffset, r.yoffset - padTop);
  }

  /** In an upright font, negating the record's y offset, then taking off the height and the top
      padding, gives the glyph's. */
  lemma CharRecordYOffsetInvertibleUpright(g: Glyph, padLeft: int32, padTop: int32)
    ensures Wrap32(-(CharRecordOf(g, padLeft, padTop, false).yoffset as int) - g.height - padTop) == g.yoffset
  {
    UnflipInverse(g.yoffset, g.height, padTop, CharRecordOf(g, padLeft, padTop, false).yoffset);
  }

  /** Moving a wrapped value `w` of `x` by what separates `x` from `v` gives back `v`. */
  lemma WrapBack(v: int32, x: int, w: int, back: int)
    requires w == Wrap32(x) && back - w == v - x
    ensures Wrap32(back) == v
  {
    var k := Wrap32Offset(x);
    Wrap32Unique(back, v, -k);
  }

  /** Taking back the negation around the height, then the shift, restores an `int` value. */
  lemma UnflipInverse(v: int32, h: int, d: int, y: int)
    requires y == Wrap32(-(Wrap32(h + Wrap32(v + d)) as int))
    ensures Wrap32(-y - h - d) == v
  {
    var k1 := Wrap32Offset(v + d);
    var k2 := Wrap32Offset(h + Wrap32(v + d));
    var k3 := Wrap32Offset(-(Wrap32(h + Wrap32(v + d)) as int));
    Wrap32Unique(-y - h - d, v, k3 - k1 - k2);
  }

  /** The records of a glyph list, in list order. */
  function CharRecords(gs: seq<Glyph>, padLeft: int32, padTop: int32, flipped: bool): (rs: seq<CharRecord>)
    ensures |rs| == |gs|
  {
    seq(|gs|, k requires 0 <= k < |gs| => CharRecordOf(gs[k], padLeft, padTop, flipped))
  }

  /** The `info` values the writer takes from the configuration. */
  function InfoOf(config: Configuration, face: string): (info: Info)
    reads config
    ensures info.padding == [config.padTop, config.padRight, config.padBottom, config.padLeft]
    ensures info.spacing == [config.spaceX, config.spaceY]
    ensures info.smooth == !config.mono && info.aa == AntiAliasLevel(config.hinting)
  {
    Info(face, config.size, config.bold, config.italic, config.charset, config.unicode, config.stretchH,
      !config.mono, AntiAliasLevel(config.hinting),
      [config.padTop, config.padRight, config.padBottom, config.padLeft], [config.spaceX, config.spaceY])
  }

  /** The dialect: XML when the format names it in any case, text otherwise. */
  predicate IsXml(format: string)
  {
    EqualsIgnoreCase(format, "xml")
  }

  function Header(xml: bool): string { if xml then "<font>\n" else "" }

  function Footer(xml: bool): string { if xml then "</font>" else "" }

  /** The kerning block, present only when kerning is on: the count as the `int` counter holds it, and
      the records. */
  function KerningsBlock(xml: bool, on: bool, ps: seq<KernPair>): string
  {
    if on then CountLine(xml, "kernings", Wrap32(|ps|)) + KerningLines(xml, ps) + XmlLine(xml, "/kernings")
    else ""
  }

  function MetricsLine(xml: bool, m: Metrics): string
  {
    MetricsBody(xml, m) + "\n"
  }

  /** The `metrics` record: each float text quoted with a trailing space. */
  function MetricsBody(xml: bool, m: Metrics): string
  {
    Joined(MetricsPieces(xml, m))
  }

  function MetricsPieces(xml: bool, m: Metrics): seq<string>
  {
    [XmlTab(xml), XmlOpen(xml),
     "metrics ascent=", Quote(xml, m.ascent, true), " descent=", Quote(xml, m.descent, true),
     " down=", Quote(xml, m.down, true), " capHeight=", Quote(xml, m.capHeight, true),
     " lineHeight=", Quote(xml, m.lineHeight, true), " spaceXAdvance=", Quote(xml, m.spaceXAdvance, true),
     " xHeight=", Quote(xml, m.xHeight, true), XmlCloseSelf(xml)]
  }

  function MetricsBlock(xml: bool, m: Metrics): string
  {
    XmlLine(xml, "metrics") + MetricsLine(xml, m) + XmlLine(xml, "/metrics")
  }

  /** What the writer lays out, with every value already taken from the configuration and the font data. */
  datatype Descriptor = Descriptor(
    xml: bool, info: Info, lineHeight: int32, base: int32, scaleW: int32, scaleH: int32, pages: seq<string>,
    chars: seq<CharRecord>, kerning: bool, kernings: seq<KernPair>, metrics: Metrics)

  /** The record blocks of a descriptor, in the order the writer appends them. */
  function Records(d: Descriptor): seq<string>
  {
    [InfoLine(d.xml, d.info),
     CommonLine(d.xml, IntToString(d.lineHeight), IntToString(d.base), d.scaleW, d.scaleH, |d.pages|),
     PagesBlock(d.xml, d.pages),
     CharsBlock(d.xml, d.chars, 6),
     KerningsBlock(d.xml, d.kerning, d.kernings),
     MetricsBlock(d.xml, d.metrics)]
  }

  /** Everything the writer appends, one append after another: in XML a `font` element around the record
      blocks. */
  function Sections(d: Descriptor): seq<string>
  {
    [Header(d.xml)] + [InfoLine(d.xml, d.info)]
    + [CommonLine(d.xml, IntToString(d.lineHeight), IntToString(d.base), d.scaleW, d.scaleH, |d.pages|)]
    + [PagesBlock(d.xml, d.pages)] + [CharsBlock(d.xml, d.chars, 6)]
    + [KerningsBlock(d.xml, d.kerning, d.kernings)] + [MetricsBlock(d.xml, d.metrics)] + [Footer(d.xml)]
  }

  /** Eight appends, regrouped as the first, the six in between and the last. */
  lemma Regroup(a: string, b: string, c: string, d: string, e: string, f: string, g: string, h: string)
    ensures [a] + [b] + [c] + [d] + [e] + [f] + [g] + [h] == [a] + [b, c, d, e, f, g] + [h]
  {
  }

  /** The sections are the record blocks between the header and the footer. */
  lemma SectionsFramed(d: Descriptor)
    ensures Sections(d) == [Header(d.xml)] + Records(d) + [Footer(d.xml)]
  {
    Regroup(Header(d.xml), InfoLine(d.xml, d.info),
      CommonLine(d.xml, IntToString(d.lineHeight), IntToString(d.base), d.scaleW, d.scaleH, |d.pages|),
      PagesBlock(d.xml, d.pages), CharsBlock(d.xml, d.chars, 6), KerningsBlock(d.xml, d.kerning, d.kernings),
      MetricsBlock(d.xml, d.metrics), Footer(d.xml));
  }

  function Body(d: Descriptor): string
  {
    Joined(Records(d))
  }

  /** The text of a descriptor. */
  function Render(d: Descriptor): string
  {
    Joined(Sections(d))
  }

  /** The descriptor for the page files `pageNames` and a descriptor file called `fntName`, whose name
      without extension is the face. */
  function DescriptorOf(config: Configuration, data: FontData, pageNames: seq<string>, fntName: string): Descriptor
    reads config
  {
    var glyphs := Flatten(data.glyphs);
    Descriptor(IsXml(config.fntFormat), InfoOf(config, NameWithoutExtension(fntName)), data.lineHeight, data.base,
      config.pageWidth, config.pageHeight, pageNames, CharRecords(glyphs, config.padLeft, config.padTop, data.flipped),
      config.kerning, Kernings(glyphs), data.metrics)
  }

  /** The text the writer produces. */
  function Document(config: Configuration, data: FontData, pageNames: seq<string>, fntName: string): string
    reads config
  {
    Render(DescriptorOf(config, data, pageNames, fntName))
  }

  /** The charset the descriptor is written in: none (the platform default) for a null or empty one. */
  function WriteCharset(charset: Option<string>): (r: Option<string>)
    ensures r.Some? <==> StringNotEmpty(charset)
    ensures r.Some? ==> r == charset
  {
    if StringNotEmpty(charset) then charset else Option.None
  }

  /** `processFnt`: takes the face from the file name, the dialect and the `info` values from the
      configuration, hands the builder the header, the `info` and `common` records, the page, char and
      kerning blocks, the metrics and the footer, and returns the text with the charset it is written in. */
  method ProcessFnt(data: FontData, pageNames: seq<string>, fntName: string, config: Configuration)
    returns (text: string, charset: Option<string>)
    ensures text == Document(config, data, pageNames, fntName)
    ensures charset == WriteCharset(config.charset)
  {
    var glyphs := CollectGlyphs(data.glyphs);
    var face := NameWithoutExtension(fntName);
    var xml := IsXml(config.fntFormat);
    var info := InfoOf(config, face);
    var pieces := WriteDescriptor(xml, info, data.lineHeight, data.base, config.pageWidth, config.pageHeight,
                                  pageNames, glyphs, config.padLeft, config.padTop, data.flipped, config.kerning,
                                  data.metrics);
    assert Descriptor(xml, info, data.lineHeight, data.base, config.pageWidth, config.pageHeight, pageNames,
                      CharRecords(glyphs, config.padLeft, config.padTop, data.flipped), config.kerning,
                      Kernings(glyphs), data.metrics)
        == DescriptorOf(config, data, pageNames, fntName);
    text := Joined(pieces);
    charset := config.charset;
    charset := if charset == Option.None then Option.None else (if |charset.value| == 0 then Option.None else charset);
  }

  /** The appends of `processFnt`: header, `info` and `common` records, the page, char and kerning
      blocks, the metrics and the footer. */
  method WriteDescriptor(xml: bool, info: Info, lineHeight: int32, base: int32, scaleW: int32, scaleH: int32,
                         pageNames: seq<string>, glyphs: seq<Glyph>, padLeft: int32, padTop: int32, flipped: bool,
                         kerning: bool, metrics: Metrics)
    returns (pieces: seq<string>)
    ensures pieces == Sections(Descriptor(xml, info, lineHeight, base, scaleW, scaleH, pageNames,
                                          CharRecords(glyphs, padLeft, padTop, flipped), kerning, Kernings(glyphs),
                                          metrics))
  {
    pieces := [Header(xml)];
    pieces := pieces + [InfoLine(xml, info)];
    pieces := pieces + [CommonLine(xml, IntToString(lineHeight), IntToString(base), scaleW, scaleH, |pageNames|)];
    pieces := AppendPages(pieces, xml, pageNames);
    pieces := AppendChars(pieces, xml, glyphs, padLeft, padTop, flipped);
    pieces := AppendKernings(pieces, xml, kerning, glyphs);
    pieces := pieces + [MetricsBlock(xml, metrics)];
    pieces := pieces + [Footer(xml)];
  }

  /** The kerning loop, run only when kerning is on: the count record, the records, the closing tag. */
  method AppendKernings(pieces0: seq<string>, xml: bool, on: bool, glyphs: seq<Glyph>) returns (pieces: seq<string>)
    ensures pieces == pieces0 + [KerningsBlock(xml, on, Kernings(glyphs))]
  {
    if on {
      var kernCount, kernBuf := ScanKernings(xml, glyphs);
      pieces := pieces0 + [CountLine(xml, "kernings", kernCount) + kernBuf + XmlLine(xml, "/kernings")];
    } else {
      pieces := pieces0 + [""];
    }
  }

  /** The page loop: one `page` record per file, numbered from 0, inside a `pages` element in XML. */
  method AppendPages(pieces0: seq<string>, xml: bool, pageNames: seq<string>) returns (pieces: seq<string>)
    ensures pieces == pieces0 + [PagesBlock(xml, pageNames)]
  {
    var buf := XmlLine(xml, "pages");
    ghost var start := buf;
    var i := 0;
    while i < |pageNames|
      invariant 0 <= i <= |pageNames|
      invariant buf == start + PageLines(xml, pageNames[..i])
    {
      PageLinesSnoc(xml, pageNames, i);
      AppendAssoc(start, PageLines(xml, pageNames[..i]), PageLine(xml, i, pageNames[i]));
      buf := buf + PageLine(xml, i, pageNames[i]);
      i := i + 1;
    }
    assert pageNames[..i] == pageNames;
    pieces := pieces0 + [buf + XmlLine(xml, "/pages")];
  }

  /** The char loop: the count, then one record per glyph in list order, closed in XML. */
  method AppendChars(pieces0: seq<string>, xml: bool, glyphs: seq<Glyph>, padLeft: int32, padTop: int32,
                     flipped: bool) returns (pieces: seq<string>)
    ensures pieces == pieces0 + [CharsBlock(xml, CharRecords(glyphs, padLeft, padTop, flipped), 6)]
  {
    var records := CharRecords(glyphs, padLeft, padTop, flipped);
    var lines: seq<string> := [];
    var i := 0;
    while i < |records|
      invariant 0 <= i <= |records|
      invariant lines == CharLineList(xml, records[..i], 6)
    {
      CharLineListSnoc(xml, records, i, 6);
      lines := lines + [CharLine(xml, records[i], 6)];
      i := i + 1;
    }
    assert records[..i] == records;
    pieces := pieces0 + [CountLine(xml, "chars", |glyphs|) + Joined(lines) + XmlLine(xml, "/chars")];
  }

  // ---------------------------------------------------------------- what the descriptor holds

  /** The descriptor takes the dialect, the glyph records, the pages and the kerning switch from the
      inputs: XML iff the format is `xml` in any case, one record per non-null table entry, one page
      record per page file, and the kerning pairs of every ordered pair of glyphs with a non-zero amount. */
  lemma DescriptorOfFacts(config: Configuration, data: FontData, pageNames: seq<string>, fntName: string)
    ensures DescriptorOf(config, data, pageNames, fntName).xml <==> ToLower(config.fntFormat) == "xml"
    ensures |DescriptorOf(config, data, pageNames, fntName).chars| == GlyphCount(data.glyphs)
    ensures DescriptorOf(config, data, pageNames, fntName).pages == pageNames
    ensures DescriptorOf(config, data, pageNames, fntName).kerning == config.kerning
    ensures DescriptorOf(config, data, pageNames, fntName).kernings
         == NonZero(Concat(Matrix(Flatten(data.glyphs), Flatten(data.glyphs))))
  {
    EqualsIgnoreCaseIsLowerEquality(config.fntFormat, "xml");
    assert ToLower("xml") == "xml";
    FlattenCount(data.glyphs);
    KerningsAreNonZeroPairs(Flatten(data.glyphs));
  }

  /** The kerning block is there exactly when kerning is on. */
  lemma KerningsBlockPresent(xml: bool, on: bool, ps: seq<KernPair>)
    ensures KerningsBlock(xml, on, ps) != [] <==> on
  {
    if on {
      var count := CountLine(xml, "kernings", Wrap32(|ps|));
      assert count[|count| - 1] == '\n';
      assert |KerningsBlock(xml, on, ps)| >= |count|;
    }
  }

  // ---------------------------------------------------------------- XML framing

  /** An XML descriptor is one `font` element: `<font>` on a line of its own, the records, and `</font>`
      with no line break after it. */
  lemma RenderXmlFraming(d: Descriptor)
    requires d.xml
    ensures Render(d) == "<font>\n" + Body(d) + "</font>"
  {
    SectionsFramed(d);
    JoinedFramed(Header(d.xml), Records(d), Footer(d.xml));
  }

  /** A text descriptor is its records alone. */
  lemma RenderText(d: Descriptor)
    requires !d.xml
    ensures Render(d) == Body(d)
  {
    SectionsFramed(d);
    JoinedFramed(Header(d.xml), Records(d), Footer(d.xml));
    assert Header(d.xml) == [] && Footer(d.xml) == [];
  }

  // ---------------------------------------------------------------- characters the descriptor never holds

  /** None of the metric texts holds `c`. */
  predicate MetricsWithout(c: char, m: Metrics)
  {
    c !in m.ascent && c !in m.descent && c !in m.down && c !in m.capHeight && c !in m.lineHeight
    && c !in m.spaceXAdvance && c !in m.xHeight
  }

  /** The keys of a `metrics` record hold neither a line break nor an angle bracket. */
  lemma MetricsKeysHaveNo(c: char, tab: string, open: string, ascent: string, descent: string, down: string,
                          capHeight: string, lineHeight: string, spaceXAdvance: string, xHeight: string,
                          close: string)
    requires c == '\n' || c == '<'
    requires c !in tab && c !in open && c !in ascent && c !in descent && c !in down && c !in capHeight
    requires c !in lineHeight && c !in spaceXAdvance && c !in xHeight && c !in close
    ensures c !in Joined([tab, open, "metrics ascent=", ascent, " descent=", descent, " down=", down,
                          " capHeight=", capHeight, " lineHeight=", lineHeight, " spaceXAdvance=", spaceXAdvance,
                          " xHeight=", xHeight, close])
  {
    JoinedHasNo(c, [tab, open, "metrics ascent=", ascent, " descent=", descent, " down=", down,
                    " capHeight=", capHeight, " lineHeight=", lineHeight, " spaceXAdvance=", spaceXAdvance,
                    " xHeight=", xHeight, close]);
  }

  lemma MetricsBodyHasNo(c: char, xml: bool, m: Metrics)
    requires Foreign(c, xml) && MetricsWithout(c, m)
    ensures c !in MetricsBody(xml, m)
  {
    FramePartsHaveNo(c, xml);
    QuoteKeepsOut(c, xml, m.ascent, true);
    QuoteKeepsOut(c, xml, m.descent, true);
    QuoteKeepsOut(c, xml, m.down, true);
    QuoteKeepsOut(c, xml, m.capHeight, true);
    QuoteKeepsOut(c, xml, m.lineHeight, true);
    QuoteKeepsOut(c, xml, m.spaceXAdvance, true);
    QuoteKeepsOut(c, xml, m.xHeight, true);
    MetricsKeysHaveNo(c, XmlTab(xml), XmlOpen(xml), Quote(xml, m.ascent, true), Quote(xml, m.descent, true),
      Quote(xml, m.down, true), Quote(xml, m.capHeight, true), Quote(xml, m.lineHeight, true),
      Quote(xml, m.spaceXAdvance, true), Quote(xml, m.xHeight, true), XmlCloseSelf(xml));
  }

  /** The texts a descriptor copies from its inputs (face, charset, page file names, metric texts) all
      lack `c`. */
  predicate InputsWithout(c: char, d: Descriptor)
  {
    c !in d.info.face && c !in CharsetText(d.info.charset) && MetricsWithout(c, d.metrics)
    && forall k :: 0 <= k < |d.pages| ==> c !in d.pages[k]
  }

  /** A text descriptor holds no angle bracket, and so no `font`, `pages`, `chars`, `kernings` or
      `metrics` tag, unless one of its inputs brings one. */
  lemma RenderTextHasNoTags(d: Descriptor)
    requires !d.xml && InputsWithout('<', d)
    ensures '<' !in Render(d)
  {
    RenderText(d);
    InfoLineHasNo('<', d.xml, d.info);
    CommonLineHasNo('<', d.xml, d.lineHeight, d.base, d.scaleW, d.scaleH, |d.pages|);
    PagesBlockHasNo('<', d.xml, d.pages);
    CharsBlockHasNo('<', d.xml, d.chars, 6);
    KerningsBlockHasNo('<', d.xml, d.kerning, d.kernings);
    MetricsBlockHasNo('<', d.xml, d.metrics);
    SixHaveNo('<', InfoLine(d.xml, d.info),
      CommonLine(d.xml, IntToString(d.lineHeight), IntToString(d.base), d.scaleW, d.scaleH, |d.pages|),
      PagesBlock(d.xml, d.pages), CharsBlock(d.xml, d.chars, 6), KerningsBlock(d.xml, d.kerning, d.kernings),
      MetricsBlock(d.xml, d.metrics));
  }

  /** Six record blocks without `c` are joined without it. */
  lemma SixHaveNo(c: char, b1: string, b2: string, b3: string, b4: string, b5: string, b6: string)
    requires c !in b1 && c !in b2 && c !in b3 && c !in b4 && c !in b5 && c !in b6
    ensures c !in Joined([b1, b2, b3, b4, b5, b6])
  {
    JoinedHasNo(c, [b1, b2, b3, b4, b5, b6]);
  }

  lemma KerningsBlockHasNo(c: char, xml: bool, on: bool, ps: seq<KernPair>)
    requires Foreign(c, xml) && c != '\n'
    ensures c !in KerningsBlock(xml, on, ps)
  {
    if on {
      CountBodyHasNo(c, xml, "kernings", Wrap32(|ps|));
      KerningLinesHaveNo(c, xml, ps);
    }
  }

  lemma MetricsBlockHasNo(c: char, xml: bool, m: Metrics)
    requires Foreign(c, xml) && c != '\n' && MetricsWithout(c, m)
    ensures c !in MetricsBlock(xml, m)
  {
    MetricsBodyHasNo(c, xml, m);
  }

  // ---------------------------------------------------------------- line count

  /** The kerning block has a count line, one line per pair and, in XML, a closing line. */
  lemma KerningsBlockCount(xml: bool, on: bool, ps: seq<KernPair>)
    ensures CountChar(KerningsBlock(xml, on, ps), '\n')
         == if on then 1 + |ps| + (if xml then 1 else 0) else 0
  {
    if on {
      var count := CountLine(xml, "kernings", Wrap32(|ps|));
      CountBodyHasNo('\n', xml, "kernings", Wrap32(|ps|));
      OneLine(CountBody(xml, "kernings", Wrap32(|ps|)));
      KerningLinesCount(xml, ps);
      XmlLineCount(xml, "/kernings");
      CountCharAppend(count, KerningLines(xml, ps), '\n');
      CountCharAppend(count + KerningLines(xml, ps), XmlLine(xml, "/kernings"), '\n');
    }
  }

  /** The metrics block is one line, inside a `metrics` element in XML. */
  lemma MetricsBlockCount(xml: bool, m: Metrics)
    requires MetricsWithout('\n', m)
    ensures CountChar(MetricsBlock(xml, m), '\n') == 1 + if xml then 2 else 0
  {
    MetricsBodyHasNo('\n', xml, m);
    OneLine(MetricsBody(xml, m));
    XmlLineCount(xml, "metrics");
    XmlLineCount(xml, "/metrics");
    CountCharAppend(XmlLine(xml, "metrics"), MetricsLine(xml, m), '\n');
    CountCharAppend(XmlLine(xml, "metrics") + MetricsLine(xml, m), XmlLine(xml, "/metrics"), '\n');
  }
}
