/** The records of an AngelCode BMFont descriptor as both writers render them, in the line-oriented text
    dialect or the XML dialect. In the text dialect `quote` passes values through, so the left-justified
    columns of a `char` line are the only thing that separates one value from the next key. */
module FntMarkup {
  import opened Wrappers
  import opened JavaText
  import opened Utils
  import opened Glyphs

  // ---------------------------------------------------------------- dialect fragments

  function XmlOpen(xml: bool): string { if xml then "\t<" else "" }
  function XmlCloseSelf(xml: bool): string { if xml then "/>" else "" }
  function XmlTab(xml: bool): string { if xml then "\t" else "" }
  function XmlClose(xml: bool): string { if xml then ">" else "" }
  function XmlQuote(xml: bool): string { if xml then "\"" else "" }

  /** An element line `\t<name>` or `\t</name>` of the XML dialect; nothing in the text dialect. */
  function XmlLine(xml: bool, tag: string): string { if xml then "\t<" + tag + ">\n" else "" }

  function ChannelParams(xml: bool): string
  {
    if xml then " alphaChnl=\"0\"" + " redChnl=\"0\"" + " greenChnl=\"0\"" + " blueChnl=\"0\""
    else " alphaChnl=0" + " redChnl=0" + " greenChnl=0" + " blueChnl=0"
  }

  /** A boolean written as `1` or `0`. */
  function Flag(b: bool): string { if b then "1" else "0" }

  // ---------------------------------------------------------------- info and common

  /** The values of the `info` record; `padding` and `spacing` are already in the order the writer
      emits them. */
  datatype Info = Info(
    face: string, size: int32, bold: bool, italic: bool, charset: Option<string>, unicode: bool,
    stretchH: int32, smooth: bool, aa: int32, padding: seq<int32>, spacing: seq<int32>)

  function InfoLine(xml: bool, info: Info): string
  {
    InfoBody(xml, info) + "\n"
  }

  /** The `info` record: the face with every double quote turned into a single quote, a null charset as
      an empty one, the two lists as comma-separated numbers. */
  function InfoBody(xml: bool, info: Info): string
  {
    Joined(InfoPieces(xml, info))
  }

  function InfoPieces(xml: bool, info: Info): seq<string>
  {
    [XmlOpen(xml), "info face=\"", ReplaceChar(info.face, '"', '\''),
     "\" size=", Quote(xml, IntToString(info.size)),
     " bold=", Quote(xml, Flag(info.bold)),
     " italic=", Quote(xml, Flag(info.italic)),
     " charset=\"", CharsetText(info.charset),
     "\" unicode=", Quote(xml, Flag(info.unicode)),
     " stretchH=", Quote(xml, IntToString(info.stretchH)),
     " smooth=", Quote(xml, Flag(info.smooth)),
     " aa=", Quote(xml, IntToString(info.aa)),
     " padding=", XmlQuote(xml), JoinInts(info.padding, ','), XmlQuote(xml),
     " spacing=", XmlQuote(xml), JoinInts(info.spacing, ','), XmlQuote(xml),
     XmlCloseSelf(xml)]
  }

  /** In the `info` record the face keeps its length, every double quote in it becomes a single quote
      and so none is left to end the quoted value early; a null charset is written as nothing. */
  lemma InfoFaceAndCharset(xml: bool, info: Info)
    ensures var face := InfoPieces(xml, info)[2];
      |face| == |info.face| && '"' !in face
      && forall i :: 0 <= i < |face| ==> face[i] == if info.face[i] == '"' then '\'' else info.face[i]
    ensures info.charset.None? ==> InfoPieces(xml, info)[10] == ""
  {
    var face := ReplaceChar(info.face, '"', '\'');
    assert InfoPieces(xml, info)[2] == face && InfoPieces(xml, info)[10] == CharsetText(info.charset);
    ReplaceCharAt(info.face, '"', '\'');
    assert forall i :: 0 <= i < |face| ==> face[i] != '"';
  }

  /** A null charset is written as the empty string. */
  function CharsetText(charset: Option<string>): string
  {
    if charset.Some? then charset.value else ""
  }

  /** The `common` record; `lineHeight` and `base` are the texts the writer appends for them. */
  function CommonLine(xml: bool, lineHeight: string, base: string, scaleW: int32, scaleH: int32, pages: nat): string
  {
    CommonBody(xml, lineHeight, base, scaleW, scaleH, pages) + "\n"
  }

  function CommonBody(xml: bool, lineHeight: string, base: string, scaleW: int32, scaleH: int32, pages: nat): string
  {
    Joined(CommonPieces(xml, lineHeight, base, scaleW, scaleH, pages))
  }

  function CommonPieces(xml: bool, lineHeight: string, base: string, scaleW: int32, scaleH: int32, pages: nat)
    : seq<string>
  {
    [XmlOpen(xml), "common lineHeight=", Quote(xml, lineHeight), " base=", Quote(xml, base),
     " scaleW=", Quote(xml, IntToString(scaleW)), " scaleH=", Quote(xml, IntToString(scaleH)),
     " pages=", Quote(xml, IntToString(pages)), " packed=", Quote(xml, "0"),
     ChannelParams(xml), XmlCloseSelf(xml)]
  }

  // ---------------------------------------------------------------- pages

  function PageLine(xml: bool, id: nat, file: string): string
  {
    PageBody(xml, id, file) + "\n"
  }

  function PageBody(xml: bool, id: nat, file: string): string
  {
    Joined(PagePieces(xml, id, file))
  }

  function PagePieces(xml: bool, id: nat, file: string): seq<string>
  {
    [XmlTab(xml), XmlOpen(xml), "page id=", Quote(xml, IntToString(id)), " file=\"", file, "\"", XmlCloseSelf(xml)]
  }

  /** One `page` record per file name, with `id` counting from 0 in list order. */
  function PageLines(xml: bool, files: seq<string>): string
  {
    if files == [] then ""
    else PageLines(xml, files[..|files| - 1]) + PageLine(xml, |files| - 1, files[|files| - 1])
  }

  // ---------------------------------------------------------------- chars

  /** The nine numbers of a `char` record. */
  datatype CharRecord = CharRecord(
    id: int32, x: int32, y: int32, width: int32, height: int32,
    xoffset: int32, yoffset: int32, xadvance: int32, page: int32)

  function CountLine(xml: bool, element: string, count: int): string
  {
    CountBody(xml, element, count) + "\n"
  }

  /** The record that announces how many records of a block follow. */
  function CountBody(xml: bool, element: string, count: int): string
  {
    Joined(CountPieces(xml, element, count))
  }

  function CountPieces(xml: bool, element: string, count: int): seq<string>
  {
    [XmlOpen(xml), element, " count=", Quote(xml, IntToString(count)), XmlClose(xml)]
  }

  /** A value left-justified in a column of `width` characters, then quoted with a trailing space. */
  function Column(xml: bool, n: int, width: nat): string
  {
    Quote(xml, PadRight(IntToString(n), width), true)
  }

  /** A `char` record whose id column is `idWidth` wide; every other column is 5 wide. */
  function CharLine(xml: bool, r: CharRecord, idWidth: nat): string
  {
    CharBody(xml, r, idWidth) + "\n"
  }

  function CharBody(xml: bool, r: CharRecord, idWidth: nat): string
  {
    Joined(CharPieces(xml, r, idWidth))
  }

  function CharPieces(xml: bool, r: CharRecord, idWidth: nat): seq<string>
  {
    [XmlTab(xml), XmlOpen(xml),
     "char id=", Column(xml, r.id, idWidth),
     "x=", Column(xml, r.x, 5), "y=", Column(xml, r.y, 5),
     "width=", Column(xml, r.width, 5), "height=", Column(xml, r.height, 5),
     "xoffset=", Column(xml, r.xoffset, 5), "yoffset=", Column(xml, r.yoffset, 5),
     "xadvance=", Column(xml, r.xadvance, 5), "page=", Column(xml, r.page, 5),
     "chnl=", Quote(xml, "0", true),
     XmlCloseSelf(xml)]
  }

  /** The `char` records one after another, one line each, as they are handed to the buffer. */
  function CharLineList(xml: bool, rs: seq<CharRecord>, idWidth: nat): seq<string>
  {
    if rs == [] then [] else CharLineList(xml, rs[..|rs| - 1], idWidth) + [CharLine(xml, rs[|rs| - 1], idWidth)]
  }

  function CharLines(xml: bool, rs: seq<CharRecord>, idWidth: nat): string
  {
    Joined(CharLineList(xml, rs, idWidth))
  }

  // ---------------------------------------------------------------- kernings

  function KerningLine(xml: bool, p: KernPair): string
  {
    KerningBody(xml, p) + "\n"
  }

  function KerningBody(xml: bool, p: KernPair): string
  {
    Joined(KerningPieces(xml, p))
  }

  function KerningPieces(xml: bool, p: KernPair): seq<string>
  {
    [XmlTab(xml), XmlOpen(xml),
     "kerning first=", Quote(xml, IntToString(p.first)),
     " second=", Quote(xml, IntToString(p.second)),
     " amount=", Quote(xml, IntToString(p.amount), true),
     XmlCloseSelf(xml)]
  }

  function KerningLines(xml: bool, ps: seq<KernPair>): string
  {
    if ps == [] then "" else KerningLines(xml, ps[..|ps| - 1]) + KerningLine(xml, ps[|ps| - 1])
  }

  lemma KerningLinesSnoc(xml: bool, ps: seq<KernPair>, p: KernPair)
    ensures KerningLines(xml, ps + [p]) == KerningLines(xml, ps) + KerningLine(xml, p)
  {
    assert (ps + [p])[..|ps|] == ps;
  }

  /** One more record: the counter follows the number of pairs. */
  lemma CountKerning(pairs: seq<KernPair>, p: KernPair, count: int32)
    requires count == Wrap32(|pairs|)
    ensures Wrap32(count + 1) == Wrap32(|pairs + [p]|)
  {
    Wrap32Increment(|pairs|);
  }

  lemma KernRowStep(first: Glyph, seconds: seq<Glyph>, j: nat)
    requires j < |seconds|
    ensures KernRow(first, seconds[..j + 1])
         == KernRow(first, seconds[..j]) + (if KerningOf(first, seconds[j]) != 0 then [Pair(first, seconds[j])] else [])
  {
    assert seconds[..j + 1][..j] == seconds[..j];
  }

  lemma KernTableStep(firsts: seq<Glyph>, seconds: seq<Glyph>, i: nat)
    requires i < |firsts|
    ensures KernTable(firsts[..i + 1], seconds) == KernTable(firsts[..i], seconds) + KernRow(firsts[i], seconds)
  {
    assert firsts[..i + 1][..i] == firsts[..i];
  }

  /** The nested loops over every ordered pair of glyphs that count the non-zero kernings in an `int`
      and render their records into `kernBuf`. */
  method ScanKernings(xml: bool, glyphs: seq<Glyph>) returns (kernCount: int32, kernBuf: string)
    ensures kernCount == Wrap32(|Kernings(glyphs)|)
    ensures kernBuf == KerningLines(xml, Kernings(glyphs))
  {
    kernCount := 0;
    kernBuf := "";
    var i := 0;
    while i < |glyphs|
      invariant 0 <= i <= |glyphs|
      invariant kernCount == Wrap32(|KernTable(glyphs[..i], glyphs)|)
      invariant kernBuf == KerningLines(xml, KernTable(glyphs[..i], glyphs))
    {
      KernTableStep(glyphs, glyphs, i);
      kernCount, kernBuf := ScanRow(xml, glyphs[i], glyphs, KernTable(glyphs[..i], glyphs), kernCount, kernBuf);
      i := i + 1;
    }
    assert glyphs[..i] == glyphs;
  }

  /** The inner loop of the scan: the pairs whose first glyph is `first`, appended to the count and the
      buffer the earlier rows produced. */
  method ScanRow(xml: bool, first: Glyph, seconds: seq<Glyph>, ghost done: seq<KernPair>,
                 count0: int32, buf0: string) returns (count: int32, buf: string)
    requires count0 == Wrap32(|done|) && buf0 == KerningLines(xml, done)
    ensures count == Wrap32(|done + KernRow(first, seconds)|)
    ensures buf == KerningLines(xml, done + KernRow(first, seconds))
  {
    count, buf := count0, buf0;
    ghost var pairs := done;
    var j := 0;
    assert done + KernRow(first, seconds[..0]) == pairs;
    while j < |seconds|
      invariant 0 <= j <= |seconds|
      invariant pairs == done + KernRow(first, seconds[..j])
      invariant count == Wrap32(|pairs|)
      invariant buf == KerningLines(xml, pairs)
    {
      var second := seconds[j];
      var kern := KerningOf(first, second);
      KernRowStep(first, seconds, j);
      if kern != 0 {
        var p := KernPair(first.id, second.id, kern);
        CountKerning(pairs, p, count);
        KerningLinesSnoc(xml, pairs, p);
        count := Wrap32(count + 1);
        buf := buf + KerningLine(xml, p);
        pairs := pairs + [p];
      }
      j := j + 1;
    }
    assert seconds[..j] == seconds;
  }

  // ---------------------------------------------------------------- appending

  /** Appending to a buffer piece by piece is appending the concatenation of the pieces. */
  lemma AppendAssoc(a: string, b: string, c: string)
    ensures a + b + c == a + (b + c)
  {
  }

  lemma PageLinesSnoc(xml: bool, files: seq<string>, i: nat)
    requires i < |files|
    ensures PageLines(xml, files[..i + 1]) == PageLines(xml, files[..i]) + PageLine(xml, i, files[i])
  {
    assert files[..i + 1][..i] == files[..i];
  }

  lemma CharLineListSnoc(xml: bool, rs: seq<CharRecord>, i: nat, idWidth: nat)
    requires i < |rs|
    ensures CharLineList(xml, rs[..i + 1], idWidth) == CharLineList(xml, rs[..i], idWidth) + [CharLine(xml, rs[i], idWidth)]
  {
    assert rs[..i + 1][..i] == rs[..i];
  }

  /** The text of a string builder that was handed `pieces` one after another. */
  function Joined(pieces: seq<string>): string
  {
    if |pieces| == 0 then "" else Joined(pieces[..|pieces| - 1]) + pieces[|pieces| - 1]
  }

  /** Handing the builder one more piece puts it at the end of the text. */
  lemma JoinedSnoc(pieces: seq<string>, p: string)
    ensures Joined(pieces + [p]) == Joined(pieces) + p
  {
    assert (pieces + [p])[..|pieces|] == pieces;
  }

  /** The first piece opens the text. */
  lemma {:induction false} JoinedCons(h: string, pieces: seq<string>)
    ensures Joined([h] + pieces) == h + Joined(pieces)
    decreases |pieces|
  {
    if |pieces| == 0 {
      assert [h] + pieces == [] + [h];
      JoinedSnoc([], h);
    } else {
      var init := pieces[..|pieces| - 1];
      var last := pieces[|pieces| - 1];
      assert pieces == init + [last];
      assert [h] + pieces == ([h] + init) + [last];
      JoinedSnoc([h] + init, last);
      JoinedCons(h, init);
      JoinedSnoc(init, last);
      AppendAssoc(h, Joined(init), last);
    }
  }

  /** A text made of an opening piece, middle pieces and a closing piece. */
  lemma JoinedFramed(h: string, pieces: seq<string>, f: string)
    ensures Joined([h] + pieces + [f]) == h + Joined(pieces) + f
  {
    JoinedSnoc([h] + pieces, f);
    JoinedCons(h, pieces);
  }

  /** A character in none of the pieces is not in the text. */
  lemma {:induction false} JoinedHasNo(c: char, pieces: seq<string>)
    requires forall k :: 0 <= k < |pieces| ==> c !in pieces[k]
    ensures c !in Joined(pieces)
    decreases |pieces|
  {
    if |pieces| != 0 {
      JoinedHasNo(c, pieces[..|pieces| - 1]);
    }
  }

  // ---------------------------------------------------------------- blocks shared by both writers

  /** The `page` records, inside a `pages` element in the XML dialect. */
  function PagesBlock(xml: bool, files: seq<string>): string
  {
    XmlLine(xml, "pages") + PageLines(xml, files) + XmlLine(xml, "/pages")
  }

  /** The `chars` record announcing the number of `char` records, the records, and `</chars>` in the
      XML dialect. */
  function CharsBlock(xml: bool, rs: seq<CharRecord>, idWidth: nat): string
  {
    CountLine(xml, "chars", |rs|) + CharLines(xml, rs, idWidth) + XmlLine(xml, "/chars")
  }

  // ---------------------------------------------------------------- characters the markup never adds

  /** A character the record syntax itself never produces inside a record: the line break, and the
      angle bracket in the text dialect. */
  predicate Foreign(c: char, xml: bool)
  {
    c == '\n' || (c == '<' && !xml)
  }

  lemma ReplaceCharKeepsOut(c: char, s: string, from: char, to: char)
    requires c !in s && c != to
    ensures c !in ReplaceChar(s, from, to)
  {
    var r := ReplaceChar(s, from, to);
    ReplaceCharAt(s, from, to);
    forall i | 0 <= i < |r|
      ensures r[i] != c
    {
      assert r[i] == if s[i] == from then to else s[i];
    }
  }

  lemma {:induction false} JoinIntsHasNo(c: char, ns: seq<int>, sep: char)
    requires c != sep && c != '-' && !IsDigit(c)
    ensures c !in JoinInts(ns, sep)
  {
    if |ns| > 0 {
      NumberHasNo(c, ns[0]);
      if |ns| > 1 {
        JoinIntsHasNo(c, ns[1..], sep);
      }
    }
  }

  lemma InfoBodyHasNo(c: char, xml: bool, info: Info)
    requires Foreign(c, xml) && c !in info.face && c !in CharsetText(info.charset)
    ensures c !in InfoBody(xml, info)
  {
    FramePartsHaveNo(c, xml);
    ReplaceCharKeepsOut(c, info.face, '"', '\'');
    NumberHasNo(c, info.size);
    NumberHasNo(c, info.stretchH);
    NumberHasNo(c, info.aa);
    QuoteKeepsOut(c, xml, IntToString(info.size), false);
    QuoteKeepsOut(c, xml, Flag(info.bold), false);
    QuoteKeepsOut(c, xml, Flag(info.italic), false);
    QuoteKeepsOut(c, xml, Flag(info.unicode), false);
    QuoteKeepsOut(c, xml, IntToString(info.stretchH), false);
    QuoteKeepsOut(c, xml, Flag(info.smooth), false);
    QuoteKeepsOut(c, xml, IntToString(info.aa), false);
    JoinIntsHasNo(c, info.padding, ',');
    JoinIntsHasNo(c, info.spacing, ',');
    InfoKeysHaveNo(c, XmlOpen(xml), ReplaceChar(info.face, '"', '\''), Quote(xml, IntToString(info.size)),
      Quote(xml, Flag(info.bold)), Quote(xml, Flag(info.italic)), CharsetText(info.charset),
      Quote(xml, Flag(info.unicode)), Quote(xml, IntToString(info.stretchH)), Quote(xml, Flag(info.smooth)),
      Quote(xml, IntToString(info.aa)), XmlQuote(xml), JoinInts(info.padding, ','), JoinInts(info.spacing, ','),
      XmlCloseSelf(xml));
  }

  /** The keys of an `info` record hold neither a line break nor an angle bracket. */
  lemma InfoKeysHaveNo(c: char, open: string, face: string, size: string, bold: string, italic: string,
                       charset: string, unicode: string, stretchH: string, smooth: string, aa: string,
                       q: string, padding: string, spacing: string, close: string)
    requires c == '\n' || c == '<'
    requires c !in open && c !in face && c !in size && c !in bold && c !in italic && c !in charset
    requires c !in unicode && c !in stretchH && c !in smooth && c !in aa && c !in q
    requires c !in padding && c !in spacing && c !in close
    ensures c !in Joined([open, "info face=\"", face, "\" size=", size, " bold=", bold, " italic=", italic,
                          " charset=\"", charset, "\" unicode=", unicode, " stretchH=", stretchH, " smooth=", smooth,
                          " aa=", aa, " padding=", q, padding, q, " spacing=", q, spacing, q, close])
  {
    JoinedHasNo(c, [open, "info face=\"", face, "\" size=", size, " bold=", bold, " italic=", italic,
                    " charset=\"", charset, "\" unicode=", unicode, " stretchH=", stretchH, " smooth=", smooth,
                    " aa=", aa, " padding=", q, padding, q, " spacing=", q, spacing, q, close]);
  }

  lemma CommonBodyHasNo(c: char, xml: bool, lineHeight: string, base: string, scaleW: int32, scaleH: int32,
                        pages: nat)
    requires Foreign(c, xml) && c !in lineHeight && c !in base
    ensures c !in CommonBody(xml, lineHeight, base, scaleW, scaleH, pages)
  {
    FramePartsHaveNo(c, xml);
    ChannelParamsHaveNo(c, xml);
    NumberHasNo(c, scaleW);
    NumberHasNo(c, scaleH);
    NumberHasNo(c, pages);
    QuoteKeepsOut(c, xml, lineHeight, false);
    QuoteKeepsOut(c, xml, base, false);
    QuoteKeepsOut(c, xml, IntToString(scaleW), false);
    QuoteKeepsOut(c, xml, IntToString(scaleH), false);
    QuoteKeepsOut(c, xml, IntToString(pages), false);
    QuoteKeepsOut(c, xml, "0", false);
    CommonKeysHaveNo(c, XmlOpen(xml), Quote(xml, lineHeight), Quote(xml, base), Quote(xml, IntToString(scaleW)),
      Quote(xml, IntToString(scaleH)), Quote(xml, IntToString(pages)), Quote(xml, "0"), ChannelParams(xml),
      XmlCloseSelf(xml));
  }

  /** The keys of a `common` record hold neither a line break nor an angle bracket. */
  lemma CommonKeysHaveNo(c: char, open: string, lineHeight: string, base: string, scaleW: string,
                         scaleH: string, pages: string, packed: string, channels: string, close: string)
    requires c == '\n' || c == '<'
    requires c !in open && c !in lineHeight && c !in base && c !in scaleW && c !in scaleH
    requires c !in pages && c !in packed && c !in channels && c !in close
    ensures c !in Joined([open, "common lineHeight=", lineHeight, " base=", base, " scaleW=", scaleW,
                          " scaleH=", scaleH, " pages=", pages, " packed=", packed, channels, close])
  {
    JoinedHasNo(c, [open, "common lineHeight=", lineHeight, " base=", base, " scaleW=", scaleW,
                    " scaleH=", scaleH, " pages=", pages, " packed=", packed, channels, close]);
  }

  lemma CountBodyHasNo(c: char, xml: bool, element: string, count: int)
    requires Foreign(c, xml) && c !in element
    ensures c !in CountBody(xml, element, count)
  {
    NumberHasNo(c, count);
    QuoteKeepsOut(c, xml, IntToString(count), false);
    FramePartsHaveNo(c, xml);
    JoinedHasNo(c, CountPieces(xml, element, count));
  }

  /** The dialect's framing fragments hold no character foreign to it. */
  lemma FramePartsHaveNo(c: char, xml: bool)
    requires Foreign(c, xml)
    ensures c !in XmlOpen(xml) && c !in XmlClose(xml) && c !in XmlCloseSelf(xml) && c !in XmlTab(xml)
    ensures c !in XmlQuote(xml)
    ensures c != '"' && c != ' ' && c != '-' && !IsDigit(c) && c != '\''
  {
  }

  lemma ChannelParamsHaveNo(c: char, xml: bool)
    requires Foreign(c, xml)
    ensures c !in ChannelParams(xml)
  {
  }

  /** A value the writers quote holds a newline only if the value itself does. */
  lemma QuoteKeepsOut(c: char, xml: bool, param: string, spaceAfter: bool)
    requires c !in param && c != '"' && c != ' '
    ensures c !in Quote(xml, param, spaceAfter)
  {
    if xml {
      var v := Trim(param);
      TrimKeepsOut(c, param);
      assert Quote(xml, param, spaceAfter) == "\"" + v + "\"" + (if spaceAfter then " " else "");
    }
  }

  lemma NumberHasNo(c: char, n: int)
    requires c != '-' && !IsDigit(c)
    ensures c !in IntToString(n)
  {
    IntToStringChars(n);
  }

  lemma ColumnHasNo(c: char, xml: bool, n: int, width: nat)
    requires c != '-' && !IsDigit(c) && c != '"' && c != ' '
    ensures c !in Column(xml, n, width)
  {
    NumberHasNo(c, n);
    QuoteKeepsOut(c, xml, PadRight(IntToString(n), width), true);
  }

  lemma CharBodyHasNo(c: char, xml: bool, r: CharRecord, idWidth: nat)
    requires Foreign(c, xml)
    ensures c !in CharBody(xml, r, idWidth)
  {
    FramePartsHaveNo(c, xml);
    ColumnHasNo(c, xml, r.id, idWidth);
    ColumnHasNo(c, xml, r.x, 5);
    ColumnHasNo(c, xml, r.y, 5);
    ColumnHasNo(c, xml, r.width, 5);
    ColumnHasNo(c, xml, r.height, 5);
    ColumnHasNo(c, xml, r.xoffset, 5);
    ColumnHasNo(c, xml, r.yoffset, 5);
    ColumnHasNo(c, xml, r.xadvance, 5);
    ColumnHasNo(c, xml, r.page, 5);
    QuoteKeepsOut(c, xml, "0", true);
    CharKeysHaveNo(c, XmlTab(xml), XmlOpen(xml), Column(xml, r.id, idWidth), Column(xml, r.x, 5),
      Column(xml, r.y, 5), Column(xml, r.width, 5), Column(xml, r.height, 5), Column(xml, r.xoffset, 5),
      Column(xml, r.yoffset, 5), Column(xml, r.xadvance, 5), Column(xml, r.page, 5), Quote(xml, "0", true),
      XmlCloseSelf(xml));
  }

  /** The keys of a `char` record hold neither a line break nor an angle bracket. */
  lemma CharKeysHaveNo(c: char, tab: string, open: string, id: string, x: string, y: string, w: string,
                       h: string, xo: string, yo: string, xa: string, pg: string, ch: string, close: string)
    requires c == '\n' || c == '<'
    requires c !in tab && c !in open && c !in id && c !in x && c !in y && c !in w && c !in h
    requires c !in xo && c !in yo && c !in xa && c !in pg && c !in ch && c !in close
    ensures c !in Joined([tab, open, "char id=", id, "x=", x, "y=", y, "width=", w, "height=", h,
                          "xoffset=", xo, "yoffset=", yo, "xadvance=", xa, "page=", pg, "chnl=", ch, close])
  {
    JoinedHasNo(c, [tab, open, "char id=", id, "x=", x, "y=", y, "width=", w, "height=", h,
                    "xoffset=", xo, "yoffset=", yo, "xadvance=", xa, "page=", pg, "chnl=", ch, close]);
  }

  lemma KerningBodyHasNo(c: char, xml: bool, p: KernPair)
    requires Foreign(c, xml)
    ensures c !in KerningBody(xml, p)
  {
    FramePartsHaveNo(c, xml);
    NumberHasNo(c, p.first);
    NumberHasNo(c, p.second);
    NumberHasNo(c, p.amount);
    QuoteKeepsOut(c, xml, IntToString(p.first), false);
    QuoteKeepsOut(c, xml, IntToString(p.second), false);
    QuoteKeepsOut(c, xml, IntToString(p.amount), true);
    JoinedHasNo(c, KerningPieces(xml, p));
  }

  lemma PageBodyHasNo(c: char, xml: bool, id: nat, file: string)
    requires Foreign(c, xml) && c !in file
    ensures c !in PageBody(xml, id, file)
  {
    FramePartsHaveNo(c, xml);
    NumberHasNo(c, id);
    QuoteKeepsOut(c, xml, IntToString(id), false);
    JoinedHasNo(c, PagePieces(xml, id, file));
  }

  // ---------------------------------------------------------------- line counts

  /** A record followed by its line break is exactly one line. */
  lemma OneLine(body: string)
    requires '\n' !in body
    ensures CountChar(body + "\n", '\n') == 1
  {
    CountCharTerminated(body, '\n');
  }

  /** The `char` block holds one line per record. */
  lemma {:induction false} CharLinesCount(xml: bool, rs: seq<CharRecord>, idWidth: nat)
    ensures CountChar(CharLines(xml, rs, idWidth), '\n') == |rs|
  {
    if rs != [] {
      var r := rs[|rs| - 1];
      CharLinesCount(xml, rs[..|rs| - 1], idWidth);
      JoinedSnoc(CharLineList(xml, rs[..|rs| - 1], idWidth), CharLine(xml, r, idWidth));
      CharBodyHasNo('\n', xml, r, idWidth);
      OneLine(CharBody(xml, r, idWidth));
      CountCharAppend(CharLines(xml, rs[..|rs| - 1], idWidth), CharLine(xml, r, idWidth), '\n');
    }
  }

  /** The `kerning` block holds one line per pair. */
  lemma {:induction false} KerningLinesCount(xml: bool, ps: seq<KernPair>)
    ensures CountChar(KerningLines(xml, ps), '\n') == |ps|
  {
    if ps != [] {
      var p := ps[|ps| - 1];
      KerningLinesCount(xml, ps[..|ps| - 1]);
      KerningBodyHasNo('\n', xml, p);
      OneLine(KerningBody(xml, p));
      CountCharAppend(KerningLines(xml, ps[..|ps| - 1]), KerningLine(xml, p), '\n');
    }
  }

  /** The `page` block holds one line per page file whose name has no line break. */
  lemma {:induction false} PageLinesCount(xml: bool, files: seq<string>)
    requires forall k :: 0 <= k < |files| ==> '\n' !in files[k]
    ensures CountChar(PageLines(xml, files), '\n') == |files|
  {
    if files != [] {
      var n := |files| - 1;
      PageLinesCount(xml, files[..n]);
      PageBodyHasNo('\n', xml, n, files[n]);
      OneLine(PageBody(xml, n, files[n]));
      CountCharAppend(PageLines(xml, files[..n]), PageLine(xml, n, files[n]), '\n');
    }
  }

  /** An element line of the XML dialect is one line; the text dialect has none. */
  lemma XmlLineCount(xml: bool, tag: string)
    requires '\n' !in tag
    ensures CountChar(XmlLine(xml, tag), '\n') == if xml then 1 else 0
  {
    if xml {
      assert XmlLine(xml, tag) == "\t<" + tag + ">" + "\n";
      OneLine("\t<" + tag + ">");
    }
  }

  /** The page block: the element lines of the XML dialect around one line per page. */
  lemma PagesBlockCount(xml: bool, files: seq<string>)
    requires forall k :: 0 <= k < |files| ==> '\n' !in files[k]
    ensures CountChar(PagesBlock(xml, files), '\n') == |files| + if xml then 2 else 0
  {
    PageLinesCount(xml, files);
    XmlLineCount(xml, "pages");
    XmlLineCount(xml, "/pages");
    CountCharAppend(XmlLine(xml, "pages"), PageLines(xml, files), '\n');
    CountCharAppend(XmlLine(xml, "pages") + PageLines(xml, files), XmlLine(xml, "/pages"), '\n');
  }

  /** The `chars` record announces `|rs|` records and exactly `|rs|` record lines follow it. */
  lemma CharsBlockCount(xml: bool, rs: seq<CharRecord>, idWidth: nat)
    ensures CountLine(xml, "chars", |rs|) + CharLines(xml, rs, idWidth) + XmlLine(xml, "/chars")
            == CharsBlock(xml, rs, idWidth)
    ensures CountChar(CharsBlock(xml, rs, idWidth), '\n') == 1 + |rs| + if xml then 1 else 0
  {
    CountBodyHasNo('\n', xml, "chars", |rs|);
    OneLine(CountBody(xml, "chars", |rs|));
    CharLinesCount(xml, rs, idWidth);
    XmlLineCount(xml, "/chars");
    CountCharAppend(CountLine(xml, "chars", |rs|), CharLines(xml, rs, idWidth), '\n');
    CountCharAppend(CountLine(xml, "chars", |rs|) + CharLines(xml, rs, idWidth), XmlLine(xml, "/chars"), '\n');
  }

  // ---------------------------------------------------------------- no markup in the text dialect

  lemma {:induction false} CharLinesHaveNo(c: char, xml: bool, rs: seq<CharRecord>, idWidth: nat)
    requires Foreign(c, xml) && c != '\n'
    ensures c !in CharLines(xml, rs, idWidth)
  {
    if rs != [] {
      CharLinesHaveNo(c, xml, rs[..|rs| - 1], idWidth);
      JoinedSnoc(CharLineList(xml, rs[..|rs| - 1], idWidth), CharLine(xml, rs[|rs| - 1], idWidth));
      CharBodyHasNo(c, xml, rs[|rs| - 1], idWidth);
    }
  }

  lemma {:induction false} KerningLinesHaveNo(c: char, xml: bool, ps: seq<KernPair>)
    requires Foreign(c, xml) && c != '\n'
    ensures c !in KerningLines(xml, ps)
  {
    if ps != [] {
      KerningLinesHaveNo(c, xml, ps[..|ps| - 1]);
      KerningBodyHasNo(c, xml, ps[|ps| - 1]);
    }
  }

  lemma {:induction false} PageLinesHaveNo(c: char, xml: bool, files: seq<string>)
    requires Foreign(c, xml) && c != '\n'
    requires forall k :: 0 <= k < |files| ==> c !in files[k]
    ensures c !in PageLines(xml, files)
  {
    if files != [] {
      PageLinesHaveNo(c, xml, files[..|files| - 1]);
      PageBodyHasNo(c, xml, |files| - 1, files[|files| - 1]);
    }
  }

  lemma InfoLineHasNo(c: char, xml: bool, info: Info)
    requires Foreign(c, xml) && c != '\n' && c !in info.face && c !in CharsetText(info.charset)
    ensures c !in InfoLine(xml, info)
  {
    InfoBodyHasNo(c, xml, info);
  }

  lemma CommonLineHasNo(c: char, xml: bool, lineHeight: int32, base: int32, scaleW: int32, scaleH: int32,
                        pages: nat)
    requires Foreign(c, xml) && c != '\n'
    ensures c !in CommonLine(xml, IntToString(lineHeight), IntToString(base), scaleW, scaleH, pages)
  {
    NumberHasNo(c, lineHeight);
    NumberHasNo(c, base);
    CommonBodyHasNo(c, xml, IntToString(lineHeight), IntToString(base), scaleW, scaleH, pages);
  }

  lemma PagesBlockHasNo(c: char, xml: bool, files: seq<string>)
    requires Foreign(c, xml) && c != '\n'
    requires forall k :: 0 <= k < |files| ==> c !in files[k]
    ensures c !in PagesBlock(xml, files)
  {
    PageLinesHaveNo(c, xml, files);
  }

  lemma CharsBlockHasNo(c: char, xml: bool, rs: seq<CharRecord>, idWidth: nat)
    requires Foreign(c, xml) && c != '\n'
    ensures c !in CharsBlock(xml, rs, idWidth)
  {
    CountBodyHasNo(c, xml, "chars", |rs|);
    CharLinesHaveNo(c, xml, rs, idWidth);
  }

  // ---------------------------------------------------------------- columns

  /** In the XML dialect the width of a column does not show: the value is quoted without its padding. */
  lemma XmlCharLineIgnoresWidth(r: CharRecord, w1: nat, w2: nat)
    ensures CharLine(true, r, w1) == CharLine(true, r, w2)
  {
    QuotePaddedNumber(r.id, w1, true);
    QuotePaddedNumber(r.id, w2, true);
  }

  /** In the text dialect a value narrower than its column is followed by at least one space, while a
      value that fills its column runs straight into the next key. */
  lemma TextColumnSeparation(n: int, width: nat)
    ensures |IntToString(n)| < width ==> Column(false, n, width)[|Column(false, n, width)| - 1] == ' '
    ensures |IntToString(n)| >= width ==> Column(false, n, width) == IntToString(n)
  {
  }
}
