/** The earlier picocli front end (`src/.../GdxBMFont`): the same pair and quadruple converters as the
    current one, a format converter whose test is inverted, and a `call` that fills in fewer settings
    and turns the packer's result into an exit status of 0 or 1. */
module LegacyCli {
  import opened Wrappers
  import opened JavaText
  import opened Utils
  import opened Config
  import opened Cli
  import LegacyFntWriter
  import LegacyPacker
  import Packer

  // ---------------------------------------------------------------- format converter

  /** The list of allowed formats as the converter builds it: `addAll("txt, xml")` adds one string. */
  const LEGACY_ALLOWED: seq<string> := ["txt, xml"]

  /** `FntFormatConverter.convert` as written: a value is wrapped when its lower-case form is NOT in the
      list, and refused when it is. */
  function LegacyParseFormat(value: string): (r: Result<string, ConversionError>)
    ensures r.Success? ==> r.value == value
    ensures r.Failure? ==> r.error == TypeMismatch
  {
    if ToLower(value) !in LEGACY_ALLOWED then Success(value) else Failure(TypeMismatch)
  }

  /** The only values refused are those whose lower-case form is the text "txt, xml"; every other value,
      whatever it says, is passed on unchanged. */
  lemma LegacyFormatRefusesOnlyTheListText(value: string)
    ensures LegacyParseFormat(value).Failure? <==> ToLower(value) == "txt, xml"
    ensures LegacyParseFormat(value).Success? ==> LegacyParseFormat(value).value == value
  {
  }

  /** The inversion on an input: "pdf", which the current converter refuses, is accepted. */
  lemma LegacyFormatInverted()
    ensures LegacyParseFormat("pdf") == Success("pdf")
    ensures ParseFormat("pdf").Failure?
  {
    assert ToLower("pdf") == "pdf";
  }

  /** "xml" is accepted by both converters, by the earlier one only because its list does not hold it. */
  lemma LegacyFormatAcceptsXml()
    ensures LegacyParseFormat("xml") == Success("xml")
    ensures ParseFormat("xml") == Success("xml")
  {
    assert ToLower("xml") == "xml";
  }

  // ---------------------------------------------------------------- call

  /** The options of the earlier command: no colours, hinting, filters, mipmaps or character files. */
  datatype LegacyOptions = LegacyOptions(
    name: Option<string>, pageSize: Option<Pair>, fntFormat: Option<string>, size: int32, mono: bool,
    renderCount: int32, borderStraight: bool, shadowOffsets: Option<Pair>, spacing: Option<Pair>,
    paddings: Option<Quad>, characters: Option<string>, kerning: bool, flip: bool, incremental: bool,
    override: bool)

  /** The same assignments as the current command's, with every option it lacks absent: the absent
      ones are skipped, and `genMipMaps := false` stores the value the field already has. */
  function AsOptions(o: LegacyOptions): (r: Options)
    ensures r.hinting.None? && r.color.None? && r.borderColor.None? && r.shadowColor.None?
    ensures r.minFilter.None? && r.magFilter.None? && r.charactersFiles.None? && !r.genMipMaps
  {
    Options(o.name, o.pageSize, o.fntFormat, o.size, o.mono, Option.None, Option.None, o.renderCount, Option.None,
            o.borderStraight, o.shadowOffsets, Option.None, o.spacing, o.paddings, o.characters, Option.None,
            o.kerning, o.flip, false, Option.None, Option.None, o.incremental, o.override)
  }

  /** The settings the earlier `call` hands to the packer. */
  predicate LegacyConfigured(settings: Configuration, opts: LegacyOptions)
    reads settings
  {
    Configured(settings, AsOptions(opts))
  }

  /** What the earlier command leaves alone keeps the defaults: the colours, the hinting, the filters,
      mipmaps, bold, italic, unicode, the stretch and the charset; the characters are the `characters`
      option when it is non-empty and the defaults otherwise; the other options land on their fields. */
  lemma LegacyKeepsDefaults(settings: Configuration, opts: LegacyOptions)
    requires LegacyConfigured(settings, opts)
    ensures settings.color == White && settings.borderColor == Black && settings.shadowColor == TranslucentBlack
    ensures settings.hinting == AutoMedium && settings.minFilter == Nearest && settings.magFilter == Nearest
    ensures !settings.genMipMaps && !settings.bold && !settings.italic && settings.unicode
    ensures settings.stretchH == 100 && settings.charset == Option.None
    ensures settings.characters == (if StringNotEmpty(opts.characters) then opts.characters.value else DEFAULT_CHARS)
    ensures settings.name == (if StringNotEmpty(opts.name) then opts.name else Option.None)
    ensures opts.pageSize.Some? ==> settings.pageWidth == opts.pageSize.value.arg0
                                    && settings.pageHeight == opts.pageSize.value.arg1
    ensures opts.paddings.Some? ==> settings.padTop == opts.paddings.value.arg0
                                    && settings.padLeft == opts.paddings.value.arg1
                                    && settings.padBottom == opts.paddings.value.arg2
                                    && settings.padRight == opts.paddings.value.arg3
  {
    var o := AsOptions(opts);
    assert TextApplied(settings, o) && LookApplied(settings, o) && SwitchesApplied(settings, o);
    assert OffsetsApplied(settings, o);
  }

  /** The exit status: 1 when the packer refused because a file exists, 0 for every other result. */
  function ExitStatus(code: int): (status: int)
    ensures status == 1 <==> code == LegacyPacker.CODE_FILE_EXISTS
    ensures status == 0 <==> code != LegacyPacker.CODE_FILE_EXISTS
  {
    if code == LegacyPacker.CODE_FILE_EXISTS then 1 else 0
  }

  /** `call()`: fresh settings with the options copied on, the packer run with the `override` flag, and
      its result folded into an exit status. */
  method LegacyCall(opts: LegacyOptions, stem: string, dir: string, pageCount: nat,
                    data: LegacyFntWriter.FontData, present: string -> bool)
    returns (settings: Configuration, run: Packer.Outcome, status: int)
    ensures fresh(settings) && LegacyConfigured(settings, opts)
    ensures run == LegacyPacker.LegacyExpected(stem, dir, settings, opts.override, pageCount, data, present)
    ensures status == ExitStatus(run.code)
  {
    settings := Configure(AsOptions(opts));
    var result := LegacyPacker.LegacyProcess(stem, dir, settings, opts.override, pageCount, data, present);
    run := result.value;
    status := if run.code == LegacyPacker.CODE_FILE_EXISTS then 1 else 0;
  }

  /** The command exits with 1 exactly when overriding is off and a planned file exists, and with 0
      otherwise. */
  lemma LegacyExitsOneExactlyWhenAFileExists(settings: Configuration, opts: LegacyOptions, stem: string,
                                             dir: string, pageCount: nat, data: LegacyFntWriter.FontData,
                                             present: string -> bool)
    ensures var run := LegacyPacker.LegacyExpected(stem, dir, settings, opts.override, pageCount, data, present);
      var base := LegacyPacker.LegacyBaseName(settings.name, stem);
      ExitStatus(run.code) == 1 <==>
        !opts.override && (Packer.AnyExists(present, LegacyPacker.LegacyPagePaths(dir, base, pageCount))
                           || present(LegacyPacker.LegacyFntPath(dir, base)))
  {
    LegacyPacker.LegacyRefusesExactlyWhenAFileExists(stem, dir, settings, opts.override, pageCount, data, present);
  }
}
