# gdx-bmfont descriptor writer, packer planning and command lines, in Dafny

gdx-bmfont turns a FreeType font into a libGDX bitmap font: glyph pages as PNG files and an AngelCode
BMFont descriptor (`.fnt`). The descriptor is written in a line-oriented text dialect or in an XML
dialect. It holds `info`, `common`, `page`, `chars`/`char`, `kernings`/`kerning` and, in the current
revision, `metrics` records.

This project models both revisions of the tool:

- the current packer `BitmapFontPacker`, and its command line `GdxBMFont` (picocli, under `lwjgl3/cli`);
- the earlier packer `BMFontPacker`, and its command line `GdxBMFont` (under `src`).

The two descriptor writers disagree on several points:

- the current one derives `aa` from the hinting, zeroes the rectangle of a glyph without area, corrects
  the offsets by the padding, lists the padding top, right, bottom, left, gives the id column six
  characters and adds a `metrics` record;
- the earlier one writes the render count as `aa`, copies rectangles and offsets as they are, lists the
  padding top, bottom, left, right, gives the id column five characters and writes `</font>` only
  inside its kerning branch.

Modules, one per concern:

| module | file | what it holds |
|---|---|---|
| `Wrappers` | wrappers.dfy | `Option` (a Java reference that may be null) and `Result` (a value or the exception raised) |
| `JavaText` | java_text.dfy | the Java and libGDX string operations the code relies on: `int` wrap-around, `Integer.toString`, `parseInt` and `parseUnsignedInt(_, 16)` over ASCII digits, `toLowerCase` and `equalsIgnoreCase` over ASCII letters in a locale without special rules, `trim`, `String.format("%-Ns")`, `replace`, `split`, `nameWithoutExtension` |
| `Utils` | utils.dfy | `stringNotEmpty`, `quote` and `removeDuplicateChars` (the top-level `Utils` class and the packer's nested copy are the same code, modelled once) |
| `Config` | config.dfy | the `Configuration` class (the earlier `Settings` has the same fields and defaults), hinting and filter enumerations, colours |
| `Glyphs` | glyphs.dfy | the sparse two-level glyph table and its flattening, and the kerning pairs |
| `FntMarkup` | fnt_markup.dfy | the record layouts both writers share, and the nested kerning scan |
| `FntWriter` | fnt_writer.dfy | the current `processFnt` |
| `LegacyFntWriter` | legacy_fnt_writer.dfy | the earlier `processFnt` |
| `Packer` | packer.dfy | output planning and the refusal to overwrite in the current `process` |
| `LegacyPacker` | legacy_packer.dfy | the same in the earlier `process` |
| `Cli` | cli.dfy | the six converters of the current command line, and the options copied onto a configuration |
| `CliRun` | cli_run.dfy | the current `call`: configuration, packer run, exit code |
| `LegacyCli` | legacy_cli.dfy | the earlier command line: its format converter, `call` and exit status |

What the model works on:

- **Strings** are `seq<char>`, sequences of Unicode scalar values. For text in the Basic Multilingual Plane these are Java's UTF-16 code units; a supplementary character is one `char` here and two units in Java (see "## Left out").
- **Numbers.** Java `int` values are `int32`. Sums the source computes in `int` are wrapped explicitly (`Wrap32`).
- **Rasterizer output is an input.** The page count, the glyph table, the per-glyph kerning maps and the metrics come from FreeType and are parameters.
- **The file system.** Which paths exist is a predicate parameter. What a run writes is returned as a list of writes, together with how often the font is disposed of.
- **Imperative code stays imperative.** The descriptor builders, the glyph collection, the kerning scan, the page loops of `process`, the enum converters' search loops and the field-by-field configuration in `call` are methods with loops or heap updates. Each is proved equal to a specification function (`Document`, `Flatten`, `Kernings`, `Expected`, `Configured`), and the properties are proved about those functions.

## Model

Source paths are relative to the repository root.

| member | source | states |
|---|---|---|
| JavaText.Wrap32 | src/main/java/com/anyicomplex/gdx/tools/bmfont/BitmapFontPacker.java:410-411 | Java `int` addition: a value that fits in 32 bits is unchanged; `Wrap32Offset`/`Wrap32Congruent` show it differs from the exact sum by a multiple of 2^32 |
| JavaText.ParseIntRoundTrip | lwjgl3/cli/src/main/java/com/anyicomplex/gdx/tools/bmfont/GdxBMFont.java:219 | `Integer.parseInt` reads back every `int` that `Integer.toString` writes |
| JavaText.ParseUnsignedHexRoundTrip | lwjgl3/cli/src/main/java/com/anyicomplex/gdx/tools/bmfont/GdxBMFont.java:247 | `Integer.parseUnsignedInt(_, 16)` reads back every value written in hexadecimal |
| JavaText.SplitJoin | lwjgl3/cli/src/main/java/com/anyicomplex/gdx/tools/bmfont/GdxBMFont.java:217 | `split(",")` of comma-joined fields that hold no comma and end with a non-empty field gives those fields back |
| JavaText.EqualsIgnoreCaseIsLowerEquality | src/main/java/com/anyicomplex/gdx/tools/bmfont/BitmapFontPacker.java:326 | `equalsIgnoreCase` holds exactly when the lower-case forms are equal |
| JavaText.TrimPaddedNumber | src/main/java/com/anyicomplex/gdx/tools/bmfont/BitmapFontPacker.java:405-413 | trimming a left-justified number gives the bare number back |
| JavaText.NameWithoutExtensionOfFnt | src/main/java/com/anyicomplex/gdx/tools/bmfont/BitmapFontPacker.java:323 | the face, the `.fnt` file name without extension, is the base name even when that holds dots |
| Utils.QuotePaddedNumber | src/main/java/com/anyicomplex/gdx/tools/bmfont/BitmapFontPacker.java:523-529 | in XML a number left-justified in a column of any width is quoted without its padding |
| Utils.RemoveDuplicateChars | src/main/java/com/anyicomplex/gdx/tools/bmfont/Utils.java:72-74 | the result holds no character twice, and holds exactly the characters of the input |
| Utils.RemoveDuplicateCharsIsSubsequence | src/main/java/com/anyicomplex/gdx/tools/bmfont/Utils.java:72-74 | the result is a subsequence of the input |
| Utils.RemoveDuplicateCharsOrder | src/main/java/com/anyicomplex/gdx/tools/bmfont/Utils.java:72-74 | characters of the result appear in the order of their first occurrence in the input |
| Utils.RemoveDuplicateCharsFixpoint | src/main/java/com/anyicomplex/gdx/tools/bmfont/Utils.java:72-74 | a string without duplicates is returned unchanged |
| Utils.RemoveDuplicateCharsIdempotent | src/main/java/com/anyicomplex/gdx/tools/bmfont/Utils.java:72-74 | removing duplicates twice is removing them once |
| Config.Configuration.constructor | src/main/java/com/anyicomplex/gdx/tools/bmfont/BitmapFontPacker.java:72-146 | a new configuration holds every declared default (page size -1, format "txt", size 16, hinting AutoMedium, render count 2, kerning on, …) |
| Glyphs.CollectGlyphs | src/main/java/com/anyicomplex/gdx/tools/bmfont/BitmapFontPacker.java:388-397 | the nested loops produce the flattened table: null buckets and null slots skipped, bucket by bucket, slot by slot (same loops at src/main/java/com/anyicomplex/gdx/tools/bmfont/BMFontPacker.java:218-226) |
| Glyphs.FlattenCount | src/main/java/com/anyicomplex/gdx/tools/bmfont/BitmapFontPacker.java:388-397 | the list has as many glyphs as the table has non-null entries |
| Glyphs.FlattenAtSlot | src/main/java/com/anyicomplex/gdx/tools/bmfont/BitmapFontPacker.java:388-397 | the glyph in bucket `i`, slot `j` sits at the position after all glyphs of earlier buckets and earlier slots |
| Glyphs.SlotOrder | src/main/java/com/anyicomplex/gdx/tools/bmfont/BitmapFontPacker.java:388-397 | an earlier bucket, or the same bucket and an earlier slot, means an earlier position |
| Glyphs.FlattenFromSlot | src/main/java/com/anyicomplex/gdx/tools/bmfont/BitmapFontPacker.java:388-397 | every position of the list comes from some non-null slot |
| Glyphs.KerningsAreNonZeroPairs | src/main/java/com/anyicomplex/gdx/tools/bmfont/BitmapFontPacker.java:420-434 | the kerning records are all ordered pairs (i, j), i = j included, in row-major order, with the zero amounts removed |
| Glyphs.NonZeroAmounts | src/main/java/com/anyicomplex/gdx/tools/bmfont/BitmapFontPacker.java:427-428 | every emitted pair is one of the candidate pairs and has a non-zero amount |
| FntMarkup.ScanKernings | src/main/java/com/anyicomplex/gdx/tools/bmfont/BitmapFontPacker.java:420-434 | the nested loop's counter is the number of kerning records (as an `int`) and its buffer is their lines (same loop at src/main/java/com/anyicomplex/gdx/tools/bmfont/BMFontPacker.java:251-270) |
| FntMarkup.InfoFaceAndCharset | src/main/java/com/anyicomplex/gdx/tools/bmfont/BitmapFontPacker.java:361-363 | every double quote of the face becomes a single quote, so none is left, and a null charset is written as nothing |
| FntMarkup.PagesBlockCount | src/main/java/com/anyicomplex/gdx/tools/bmfont/BitmapFontPacker.java:377-385 | the pages block has one line per page file, plus the opening and closing tags in XML |
| FntMarkup.CharsBlockCount | src/main/java/com/anyicomplex/gdx/tools/bmfont/BitmapFontPacker.java:399-417 | the chars block is the `chars count=` record announcing `n`, then exactly `n` char lines, plus the closing tag in XML |
| FntMarkup.KerningLinesCount | src/main/java/com/anyicomplex/gdx/tools/bmfont/BitmapFontPacker.java:423-434 | one kerning line per kerning record |
| FntMarkup.TextColumnSeparation | src/main/java/com/anyicomplex/gdx/tools/bmfont/BitmapFontPacker.java:405-413 | in the text dialect a value narrower than its column ends in a space, and a value as wide as its column is the bare number, running into the next key |
| FntMarkup.XmlCharLineIgnoresWidth | src/main/java/com/anyicomplex/gdx/tools/bmfont/BitmapFontPacker.java:405 | in XML the width of the id column makes no difference to the char line |
| FntWriter.AntiAliasLevel | src/main/java/com/anyicomplex/gdx/tools/bmfont/BitmapFontPacker.java:327-345 | `aa` is 0 for None, 1 for Slight/AutoSlight, 2 for Medium/AutoMedium and 3 for Full/AutoFull, each in both directions |
| FntWriter.CharRecordOf | src/main/java/com/anyicomplex/gdx/tools/bmfont/BitmapFontPacker.java:402-413 | id, advance and page are copied; a glyph with width or height 0 gets x = y = width = height = 0, any other keeps its rectangle |
| FntWriter.CharRecordXOffsetInvertible | src/main/java/com/anyicomplex/gdx/tools/bmfont/BitmapFontPacker.java:410 | the written x offset plus the left padding is the glyph's x offset (in `int` arithmetic) |
| FntWriter.CharRecordYOffsetInvertibleFlipped | src/main/java/com/anyicomplex/gdx/tools/bmfont/BitmapFontPacker.java:411 | in a flipped font the written y offset minus the top padding is the glyph's y offset |
| FntWriter.CharRecordYOffsetInvertibleUpright | src/main/java/com/anyicomplex/gdx/tools/bmfont/BitmapFontPacker.java:411 | in an upright font the negated written y offset, minus the raw height and the top padding, is the glyph's y offset |
| FntWriter.InfoOf | src/main/java/com/anyicomplex/gdx/tools/bmfont/BitmapFontPacker.java:361-368 | the padding is listed top, right, bottom, left, the spacing x, y; `smooth` is the negation of `mono` and `aa` comes from the hinting |
| FntWriter.ProcessFnt | src/main/java/com/anyicomplex/gdx/tools/bmfont/BitmapFontPacker.java:321-464 | the builder's text is the rendering of the descriptor built from the configuration and the font data, and the descriptor is written in the configured charset exactly when that is non-null and non-empty, otherwise in the platform default |
| FntWriter.DescriptorOfFacts | src/main/java/com/anyicomplex/gdx/tools/bmfont/BitmapFontPacker.java:326-434 | XML exactly when the format is "xml" in any case; one char record per non-null table entry; one page record per page file; the kerning switch and pairs as `KerningsAreNonZeroPairs` describes |
| FntWriter.KerningsBlockPresent | src/main/java/com/anyicomplex/gdx/tools/bmfont/BitmapFontPacker.java:420-441 | the kerning block is present exactly when kerning is on |
| FntWriter.KerningsBlockCount | src/main/java/com/anyicomplex/gdx/tools/bmfont/BitmapFontPacker.java:436-441 | with kerning on, the block is the count record, one line per pair and, in XML, the closing tag; with kerning off it is empty |
| FntWriter.MetricsBlockCount | src/main/java/com/anyicomplex/gdx/tools/bmfont/BitmapFontPacker.java:443-456 | the metrics record is one line, inside a `metrics` element in XML |
| FntWriter.RenderXmlFraming | src/main/java/com/anyicomplex/gdx/tools/bmfont/BitmapFontPacker.java:349-458 | an XML descriptor is `<font>` and a line break, the records, then `</font>` with no line break after it |
| FntWriter.RenderText | src/main/java/com/anyicomplex/gdx/tools/bmfont/BitmapFontPacker.java:349-458 | a text descriptor is its records with no header or footer |
| FntWriter.RenderTextHasNoTags | src/main/java/com/anyicomplex/gdx/tools/bmfont/BitmapFontPacker.java:349-458 | a text descriptor contains no `<`, so no `font`, `pages`, `chars`, `kernings` or `metrics` tag, unless a face, charset, metric text or page name brings one |
| LegacyFntWriter.CharRecordOf | src/main/java/com/anyicomplex/gdx/tools/bmfont/BMFontPacker.java:231-247 | the rectangle and the x offset are copied as they are, with no zeroing of empty glyphs; in a flipped font the y offset is copied too |
| LegacyFntWriter.CharRecordYOffsetInvertible | src/main/java/com/anyicomplex/gdx/tools/bmfont/BMFontPacker.java:242 | in an upright font the negated written y offset minus the height is the glyph's y offset |
| LegacyFntWriter.CharRecordIsUnpadded | src/main/java/com/anyicomplex/gdx/tools/bmfont/BMFontPacker.java:231-247 | for a glyph with area the record is the current writer's record with zero padding |
| LegacyFntWriter.InfoOf | src/main/java/com/anyicomplex/gdx/tools/bmfont/BMFontPacker.java:170-194 | `aa` is the render count, whatever the hinting; the padding is listed top, bottom, left, right |
| LegacyFntWriter.InfoAgainstCurrent | src/main/java/com/anyicomplex/gdx/tools/bmfont/BMFontPacker.java:170-194 | the two writers' `info` values differ only in `aa` and the padding order |
| LegacyFntWriter.ProcessFnt | src/main/java/com/anyicomplex/gdx/tools/bmfont/BMFontPacker.java:156-282 | the builder's text is the rendering of the descriptor built from the settings and the font data |
| LegacyFntWriter.DescriptorOfFacts | src/main/java/com/anyicomplex/gdx/tools/bmfont/BMFontPacker.java:157-270 | XML exactly when the format is "xml" in any case; one char record per non-null table entry, in table order; one page record per page file; the kerning pairs as in the current writer |
| LegacyFntWriter.RenderXmlKerningFraming | src/main/java/com/anyicomplex/gdx/tools/bmfont/BMFontPacker.java:159-279 | with kerning on, an XML descriptor is `<font>` and a line break, the records, then `</font>` |
| LegacyFntWriter.RenderText | src/main/java/com/anyicomplex/gdx/tools/bmfont/BMFontPacker.java:159-279 | a text descriptor is its records alone, with or without kerning |
| LegacyFntWriter.RenderTextHasNoTags | src/main/java/com/anyicomplex/gdx/tools/bmfont/BMFontPacker.java:159-279 | a text descriptor contains no `<` unless one of its input texts brings one |
| LegacyFntWriter.XmlWithoutKerningUnclosed | src/main/java/com/anyicomplex/gdx/tools/bmfont/BMFontPacker.java:249-280 | as written, an XML descriptor without kerning starts with `<font>` and ends with the closing `chars` tag: the `font` element is never closed |
| LegacyFntWriter.CorrectedRenderFraming | src/main/java/com/anyicomplex/gdx/tools/bmfont/BMFontPacker.java:276-279 | with `</font>` moved out of the kerning branch, every XML descriptor is one closed `font` element and the text dialect is unchanged |
| LegacyFntWriter.FiveDigitIdRunsIntoX | src/main/java/com/anyicomplex/gdx/tools/bmfont/BMFontPacker.java:236-237 | as written, id 20013 fills the five-character id column and is followed directly by `x=` |
| LegacyFntWriter.CorrectedIdColumnSeparated | src/main/java/com/anyicomplex/gdx/tools/bmfont/BitmapFontPacker.java:405 | with a six-character id column, as in the current writer, every 16-bit character code is followed by a space |
| Packer.PlanPageFiles | src/main/java/com/anyicomplex/gdx/tools/bmfont/BitmapFontPacker.java:207-212 | the page array holds the planned paths: `name.png` for one page, `name_i.png` for page `i` of several |
| Packer.FindExisting | src/main/java/com/anyicomplex/gdx/tools/bmfont/BitmapFontPacker.java:214-242 | the check loop finds a file exactly when some planned page or the descriptor exists |
| Packer.WritePages | src/main/java/com/anyicomplex/gdx/tools/bmfont/BitmapFontPacker.java:244-249 | page `i` is written to the `i`-th planned path, in order |
| Packer.Process | src/main/java/com/anyicomplex/gdx/tools/bmfont/BitmapFontPacker.java:184-256 | a null configuration raises; otherwise the run does what `Expected` says |
| Packer.RefusesExactlyWhenAFileExists | src/main/java/com/anyicomplex/gdx/tools/bmfont/BitmapFontPacker.java:214-256 | the result is `FILE_EXISTS` exactly when overriding is off and a planned page or the descriptor exists, `SUCCESS` otherwise |
| Packer.RefusalWritesNothing | src/main/java/com/anyicomplex/gdx/tools/bmfont/BitmapFontPacker.java:214-242 | a refused run writes nothing, and every run disposes of the font exactly once |
| Packer.SuccessWritesPagesThenDescriptor | src/main/java/com/anyicomplex/gdx/tools/bmfont/BitmapFontPacker.java:243-256 | a successful run writes every page in order and then the descriptor, last |
| Packer.OverrideAlwaysSucceeds | src/main/java/com/anyicomplex/gdx/tools/bmfont/BitmapFontPacker.java:158-160 | with overriding on, the default of the three-argument `process`, a run always succeeds |
| Packer.PlannedNames | src/main/java/com/anyicomplex/gdx/tools/bmfont/BitmapFontPacker.java:206-213 | page `i` is named base name plus `.png` or `_i.png`, and the face read back from the descriptor's name is the base name |
| Packer.PlannedPathsDistinct | src/main/java/com/anyicomplex/gdx/tools/bmfont/BitmapFontPacker.java:207-213 | the planned page paths are pairwise distinct and none is the descriptor's path |
| LegacyPacker.LegacyBaseNameAgrees | src/main/java/com/anyicomplex/gdx/tools/bmfont/BMFontPacker.java:81-87 | the earlier test (name null or shorter than one character) chooses the same base name as the current `stringNotEmpty` test (src/main/java/com/anyicomplex/gdx/tools/bmfont/Utils.java:29-31), which holds exactly for a non-null string with at least one character |
| LegacyPacker.LegacyProcess | src/main/java/com/anyicomplex/gdx/tools/bmfont/BMFontPacker.java:62-114 | null settings raise `[BMFontPacker] Settings cannot be null.`; otherwise the run does what `LegacyExpected` says |
| LegacyPacker.CheckPages | src/main/java/com/anyicomplex/gdx/tools/bmfont/BMFontPacker.java:89-96 | the page check returns early exactly when overriding is off and some planned page exists |
| LegacyPacker.WritePages | src/main/java/com/anyicomplex/gdx/tools/bmfont/BMFontPacker.java:102-109 | the array and the writes follow the planned page paths in order |
| LegacyPacker.LegacyRefusesExactlyWhenAFileExists | src/main/java/com/anyicomplex/gdx/tools/bmfont/BMFontPacker.java:89-113 | `CODE_FILE_EXISTS`, with nothing written, exactly when overriding is off and a page or then the descriptor exists; `CODE_SUCCESS` otherwise; one disposal either way |
| LegacyPacker.LegacySuccessWritesPagesThenDescriptor | src/main/java/com/anyicomplex/gdx/tools/bmfont/BMFontPacker.java:102-113 | a successful run writes every page in order and then the descriptor |
| LegacyPacker.LegacyOverrideAlwaysSucceeds | src/main/java/com/anyicomplex/gdx/tools/bmfont/BMFontPacker.java:58-60 | the three-argument `process` always succeeds |
| LegacyPacker.LegacyPathsAgree | src/main/java/com/anyicomplex/gdx/tools/bmfont/BMFontPacker.java:90-97 | under a non-empty directory both packers plan the same page and descriptor paths |
| Cli.ParseInts | lwjgl3/cli/src/main/java/com/anyicomplex/gdx/tools/bmfont/GdxBMFont.java:219 | succeeds exactly when every field parses as an `int`, with each value the field's |
| Cli.ParseTuple | lwjgl3/cli/src/main/java/com/anyicomplex/gdx/tools/bmfont/GdxBMFont.java:217-219 | a successful conversion has exactly the required number of values; that spaces are dropped first is `Cli.TupleIgnoresSpaces`, and the values are `Cli.TupleRoundTrip` |
| Cli.ParsePair | lwjgl3/cli/src/main/java/com/anyicomplex/gdx/tools/bmfont/GdxBMFont.java:214-221 | the pair converter succeeds exactly when the two-field tuple does, with its two values in order (same code at src/main/java/com/anyicomplex/gdx/tools/bmfont/GdxBMFont.java:184-191) |
| Cli.ParseQuad | lwjgl3/cli/src/main/java/com/anyicomplex/gdx/tools/bmfont/GdxBMFont.java:223-231 | the same for four fields (same code at src/main/java/com/anyicomplex/gdx/tools/bmfont/GdxBMFont.java:193-201) |
| Cli.TupleRoundTrip | lwjgl3/cli/src/main/java/com/anyicomplex/gdx/tools/bmfont/GdxBMFont.java:217-219 | `n` numbers joined by commas convert back to themselves; any other count fails with a count mismatch |
| Cli.TupleIgnoresSpaces | lwjgl3/cli/src/main/java/com/anyicomplex/gdx/tools/bmfont/GdxBMFont.java:217 | a space inserted anywhere in the text, inside a number or around a comma, does not change the conversion |
| Cli.TupleTrailingComma | lwjgl3/cli/src/main/java/com/anyicomplex/gdx/tools/bmfont/GdxBMFont.java:217 | Java's `split` drops trailing empty fields, so a trailing comma changes nothing |
| Cli.PairRoundTrip | lwjgl3/cli/src/main/java/com/anyicomplex/gdx/tools/bmfont/GdxBMFont.java:217-219 | `a,b` and `a,b,` convert to the pair (a, b) |
| Cli.PairCountMismatch | src/main/java/com/anyicomplex/gdx/tools/bmfont/GdxBMFont.java:187-188 | one number, or three, is refused as a count mismatch |
| Cli.QuadRoundTrip | src/main/java/com/anyicomplex/gdx/tools/bmfont/GdxBMFont.java:196-199 | four numbers convert to the quad in order; two are refused |
| Cli.ParseFormat | lwjgl3/cli/src/main/java/com/anyicomplex/gdx/tools/bmfont/GdxBMFont.java:233-241 | an accepted format is passed on in the case it was given in; a refusal is a type mismatch |
| Cli.FormatAccepted | lwjgl3/cli/src/main/java/com/anyicomplex/gdx/tools/bmfont/GdxBMFont.java:236-239 | a format is accepted exactly when it is "txt" or "xml" up to case |
| CliRun.FormatSelectsDialect | lwjgl3/cli/src/main/java/com/anyicomplex/gdx/tools/bmfont/GdxBMFont.java:147 | an accepted format selects the XML dialect exactly when it is "xml" up to case |
| Cli.ParseColor | lwjgl3/cli/src/main/java/com/anyicomplex/gdx/tools/bmfont/GdxBMFont.java:243-249 | a successful conversion is a packed colour below 2^32; a failure is a number-format error; which texts convert is stated by `Cli.ColorRoundTrip`, `Cli.ColorIgnoresHash`, `Cli.ColorIgnoresHexPrefix` and `Cli.ColorRefusesStrayCharacter` |
| Cli.ColorRoundTrip | lwjgl3/cli/src/main/java/com/anyicomplex/gdx/tools/bmfont/GdxBMFont.java:246-247 | a 32-bit value in hexadecimal, bare or after `#` or `0x`, converts to that colour |
| Cli.ColorIgnoresHash | lwjgl3/cli/src/main/java/com/anyicomplex/gdx/tools/bmfont/GdxBMFont.java:246 | a `#` inserted anywhere, between the digits as well as in front, does not change the conversion |
| Cli.ColorIgnoresHexPrefix | lwjgl3/cli/src/main/java/com/anyicomplex/gdx/tools/bmfont/GdxBMFont.java:246 | a `0x` inserted anywhere between texts without `x` does not change the conversion |
| Cli.ColorRefusesStrayCharacter | lwjgl3/cli/src/main/java/com/anyicomplex/gdx/tools/bmfont/GdxBMFont.java:246-247 | a text holding any character other than a hexadecimal digit, `#`, `x` or `+` is refused with a number-format error |
| Cli.ColorOverflow | lwjgl3/cli/src/main/java/com/anyicomplex/gdx/tools/bmfont/GdxBMFont.java:247 | hexadecimal digits for a value of 2^32 or more are refused |
| Cli.HintingOrdinal | lwjgl3/cli/src/main/java/com/anyicomplex/gdx/tools/bmfont/GdxBMFont.java:255 | every hinting constant occurs in `values()` |
| Cli.HintingNamesDistinct | lwjgl3/cli/src/main/java/com/anyicomplex/gdx/tools/bmfont/GdxBMFont.java:255-256 | no two hinting constants share a name up to case, so the first match is the only one |
| Cli.ParseHinting | lwjgl3/cli/src/main/java/com/anyicomplex/gdx/tools/bmfont/GdxBMFont.java:251-260 | succeeds exactly when some constant's lower-cased name is the lower-cased text, and then returns that constant; otherwise a type mismatch |
| Cli.TextureFilterOrdinal | lwjgl3/cli/src/main/java/com/anyicomplex/gdx/tools/bmfont/GdxBMFont.java:266 | every filter constant occurs in `values()` |
| Cli.TextureFilterNamesDistinct | lwjgl3/cli/src/main/java/com/anyicomplex/gdx/tools/bmfont/GdxBMFont.java:266-267 | no two filter constants share a name up to case |
| Cli.ParseTextureFilter | lwjgl3/cli/src/main/java/com/anyicomplex/gdx/tools/bmfont/GdxBMFont.java:262-271 | succeeds exactly when some filter's lower-cased name is the lower-cased text, and then returns that filter; otherwise a type mismatch |
| Cli.Configure | lwjgl3/cli/src/main/java/com/anyicomplex/gdx/tools/bmfont/GdxBMFont.java:129-176 | a fresh configuration carrying the options as `Configured` says: tuples set their fields together, `name` and `characters` only when non-empty, absent options keep the defaults, and the fields no option names keep theirs |
| Cli.Apply | lwjgl3/cli/src/main/java/com/anyicomplex/gdx/tools/bmfont/GdxBMFont.java:130-176 | the field-by-field assignments take a configuration at its defaults to one that is `Configured` |
| CliRun.Call | lwjgl3/cli/src/main/java/com/anyicomplex/gdx/tools/bmfont/GdxBMFont.java:127-187 | the configuration goes to the packer with the `override` flag, and the packer's result code is returned unchanged, success or not |
| CliRun.ConfiguredBaseName | lwjgl3/cli/src/main/java/com/anyicomplex/gdx/tools/bmfont/GdxBMFont.java:153 | the output base name is the `name` option when it is non-empty, otherwise the font file's stem |
| CliRun.ConfiguredTuples | lwjgl3/cli/src/main/java/com/anyicomplex/gdx/tools/bmfont/GdxBMFont.java:130-159 | the page size sets width and height together; the paddings land on top, left, bottom, right; an absent tuple leaves its fields at their defaults, as the `null` tests of each option do |
| CliRun.ConfiguredCharactersFromFiles | lwjgl3/cli/src/main/java/com/anyicomplex/gdx/tools/bmfont/GdxBMFont.java:137-146 | with character files the characters hold no duplicate and contain every character of the files and of the characters given before |
| LegacyCli.LegacyParseFormat | src/main/java/com/anyicomplex/gdx/tools/bmfont/GdxBMFont.java:203-211 | an accepted value is passed on unchanged; a refusal is a type mismatch |
| LegacyCli.LegacyFormatRefusesOnlyTheListText | src/main/java/com/anyicomplex/gdx/tools/bmfont/GdxBMFont.java:206-209 | the only values refused are those whose lower-case form is the text "txt, xml" |
| LegacyCli.LegacyFormatInverted | src/main/java/com/anyicomplex/gdx/tools/bmfont/GdxBMFont.java:206-209 | "pdf" is accepted by the earlier converter and refused by the current one |
| LegacyCli.LegacyFormatAcceptsXml | src/main/java/com/anyicomplex/gdx/tools/bmfont/GdxBMFont.java:206-209 | "xml" is accepted by both converters |
| LegacyCli.LegacyKeepsDefaults | src/main/java/com/anyicomplex/gdx/tools/bmfont/GdxBMFont.java:119-150 | hinting, colours, filters, mipmaps, bold, italic, unicode, stretch and charset keep their defaults; `name` and `characters` are replaced only when non-empty; page size and paddings land on their fields |
| LegacyCli.LegacyCall | src/main/java/com/anyicomplex/gdx/tools/bmfont/GdxBMFont.java:117-157 | fresh settings carrying the options, the earlier packer run with the `override` flag, and its result folded into the exit status |
| LegacyCli.LegacyExitsOneExactlyWhenAFileExists | src/main/java/com/anyicomplex/gdx/tools/bmfont/GdxBMFont.java:151-156 | the command exits with 1 exactly when overriding is off and a planned page or the descriptor exists, and with 0 on every other run |

## Left out

- **Rasterization and packing.** FreeType, `PixmapPacker` atlas packing, PNG encoding and `consumePixmap` are foreign libGDX calls. So are the `parameter(...)` copy of the configuration into FreeType's parameter and the creation of the packer when a page size is set. The rasterizer's outputs (page count, glyph table, kerning maps, metrics) are parameters.
- **Floats.** The float fields `gamma`, `borderWidth` and `borderGamma` are not modelled, and neither is the `packer` field. The current writer's `MathUtils.round` of line height and base is taken as already done (`int` inputs). The `metrics` record's values and the earlier writer's float `lineHeight`/`base` are opaque texts.
- **File system.** Existence is a predicate parameter. Writes are returned, not performed. `mkdirs`, `canRead`/`canWrite` and the directory traversal of `readCharsFromFiles` are outside the model.
- **Input validation in `process`.** The input-file and output-directory exceptions that precede the configuration's null check are not modelled (they depend only on the file system). The model begins at that null check.
- **Character files.** The characters of `--characters-files` are given as the text `readCharsFromFiles` returns.
- **libGDX defaults.** `DEFAULT_CHARS`, libGDX's default character set, is an uninterpreted constant. Its content is not part of this model, and no property depends on it.
- **`Color`.** The `Color` built from a packed value is kept as that 32-bit value; channel unpacking is left out.
- **Logging and front-end plumbing.** Verbose and error logging, `PlatformSupport`, picocli's argument dispatch and its exception messages, and the `main` methods are left out. A converter failure is a `ConversionError` value.
- **Unicode.** `toLowerCase` and `equalsIgnoreCase` are modelled for ASCII letters only.
- Utils.RemoveDuplicateChars: removes repeated Unicode scalar values, not repeated UTF-16 units. Java's `split("")` cuts a supplementary character (an emoji, a CJK Extension B ideograph) into its two surrogate units and drops a repeated high surrogate, so "😀😁" becomes "😀" and a lone low surrogate in Java but stays "😀😁" here. Text of the Basic Multilingual Plane behaves the same in both.
- **Unicode digits.** `Integer.parseInt` and `parseUnsignedInt` accept every Unicode decimal digit and the fullwidth letters Ａ to Ｆ through `Character.digit`. The model accepts ASCII digits and ASCII `a`–`f`/`A`–`F` only, so `-P "１２,３４"` or `-C "ＦＦ"` converts in Java and is a number-format error here.
- **Locale.** `toLowerCase()` uses the default locale. Under a Turkish locale `SLIGHT` lower-cases to "slıght", and Java refuses `-H SLIGHT`; the model lower-cases as a locale without special rules does, and accepts it.
- **Path normalisation.** `java.io.File`, under `FileHandle.child` and `Gdx.files.absolute`, collapses repeated separators. The model joins directory and name with "/" as text, so for the output directory "/" it plans "//font.png" where Java opens "/font.png", and a name starting with "/" gains a doubled separator. Existence and writes are looked up by that text.
- **The earlier `call`.** The earlier command line is modelled as the current `Cli.Configure` with the options it lacks absent (`LegacyCli.AsOptions`). The assignments it shares are the same statements, and `genMipMaps := false` stores the default again.
- **Grouped assignments.** `Cli.Apply` groups the assignments of the current `call` by the fields they touch. No two groups touch the same field, so the order of the field updates is not captured.
- Config.Configuration: `fntFormat`, `hinting` and `characters` are non-null here, though Java lets a caller set them to null. A null one makes `processFnt` throw a `NullPointerException`: `fntFormat.equalsIgnoreCase` (BitmapFontPacker.java:326, BMFontPacker.java:157), `switch (hinting)` (BitmapFontPacker.java:328) and `characters.length()` (BitmapFontPacker.java:388, BMFontPacker.java:218). So `FntWriter.ProcessFnt`, `Packer.Process` and the earlier pair never fail this way in the model. Neither command line ever stores a null in these fields.
- Cli.CharactersOf: has no contract of its own; its properties are stated by CliRun.ConfiguredCharactersFromFiles.
- Packer.Process: the exception message is the one the default `PlatformSupport.exception` builds; a platform that overrides `exception` is not modelled.

## Findings

In each row the as-written member models the code as it is. The corrected behaviour is the one the
current revision of the tool has, and the current model (`FntWriter`, `Packer`, `Cli`, `CliRun`) is
built on it. The earlier modules keep the code as written.

| source | as written | input that shows it | evidently intended | confidence | as-written member | corrected member |
|---|---|---|---|---|---|---|
| src/main/java/com/anyicomplex/gdx/tools/bmfont/BMFontPacker.java:276-279 | `</font>` is appended inside the kerning branch | format "xml" with kerning off: the text starts with `<font>` and ends with `\t</chars>\n` | the `font` element closed whatever the kerning switch says | not executed | LegacyFntWriter.XmlWithoutKerningUnclosed | LegacyFntWriter.CorrectedRenderFraming |
| src/main/java/com/anyicomplex/gdx/tools/bmfont/BMFontPacker.java:236 | the id is left-justified in five characters, and `quote` adds no separator in the text dialect | a glyph with id 20013 (a CJK character) in the text dialect: `char id=20013x=…` | a space between the id and `x=` for every 16-bit character code (the current writer's `%-6s`) | not executed | LegacyFntWriter.FiveDigitIdRunsIntoX | LegacyFntWriter.CorrectedIdColumnSeparated |
| src/main/java/com/anyicomplex/gdx/tools/bmfont/GdxBMFont.java:206-209 | `addAll("txt, xml")` adds one string, and the test is negated | "pdf" is accepted; "txt, xml" is the only value refused | accept exactly "txt" and "xml" up to case | not executed | LegacyCli.LegacyFormatInverted | Cli.FormatAccepted |
