/** The packer's configuration record (`BitmapFontPacker.Configuration`) and the two libGDX enumerations
    it names. The legacy `BMFontPacker.Settings` declares the same fields with the same defaults, so the
    legacy packer and command line use this class as well. */
module Config {
  import opened Wrappers
  import opened JavaText

  /** FreeType hinting strength, in declaration order. */
  datatype Hinting = None | Slight | Medium | Full | AutoSlight | AutoMedium | AutoFull

  /** libGDX texture filters, in declaration order. */
  datatype TextureFilter =
    | Nearest | Linear | MipMap | MipMapNearestNearest | MipMapLinearNearest | MipMapNearestLinear
    | MipMapLinearLinear

  /** The enum constants as `values()` lists them. */
  const HintingValues: seq<Hinting> := [Hinting.None, Slight, Medium, Full, AutoSlight, AutoMedium, AutoFull]

  const TextureFilterValues: seq<TextureFilter> :=
    [Nearest, Linear, MipMap, MipMapNearestNearest, MipMapLinearNearest, MipMapNearestLinear, MipMapLinearLinear]

  /** `Hinting.name()`. */
  function HintingName(h: Hinting): string
  {
    match h
    case None => "None"
    case Slight => "Slight"
    case Medium => "Medium"
    case Full => "Full"
    case AutoSlight => "AutoSlight"
    case AutoMedium => "AutoMedium"
    case AutoFull => "AutoFull"
  }

  /** `TextureFilter.name()`. */
  function TextureFilterName(f: TextureFilter): string
  {
    match f
    case Nearest => "Nearest"
    case Linear => "Linear"
    case MipMap => "MipMap"
    case MipMapNearestNearest => "MipMapNearestNearest"
    case MipMapLinearNearest => "MipMapLinearNearest"
    case MipMapNearestLinear => "MipMapNearestLinear"
    case MipMapLinearLinear => "MipMapLinearLinear"
  }

  /** A libGDX colour: the three defaults the configuration starts with, or one built from a packed
      RGBA8888 value by `new Color(int)`. */
  datatype Color = White | Black | TranslucentBlack | Rgba8888(bits: nat)

  /** libGDX's `FreeTypeFontGenerator.DEFAULT_CHARS`, the characters a configuration starts with. The
      constant belongs to libGDX; its content is not part of this model, and no property here depends
      on it. */
  const DEFAULT_CHARS: string

  /** The configuration of one packing run; every field is public and assigned one by one. */
  class Configuration {
    var name: Option<string>
    var pageWidth: int32
    var pageHeight: int32
    var fntFormat: string
    var bold: bool
    var italic: bool
    var unicode: bool
    var stretchH: int32
    var charset: Option<string>
    var size: int32
    var mono: bool
    var hinting: Hinting
    var color: Color
    var renderCount: int32
    var borderColor: Color
    var borderStraight: bool
    var shadowOffsetX: int32
    var shadowOffsetY: int32
    var shadowColor: Color
    var spaceX: int32
    var spaceY: int32
    var padTop: int32
    var padLeft: int32
    var padBottom: int32
    var padRight: int32
    var characters: string
    var kerning: bool
    var flip: bool
    var genMipMaps: bool
    var minFilter: TextureFilter
    var magFilter: TextureFilter
    var incremental: bool

    /** Every field at its declared default. */
    predicate IsDefault()
      reads this
    {
      name == Option.None && pageWidth == -1 && pageHeight == -1 && fntFormat == "txt"
      && !bold && !italic && unicode && stretchH == 100 && charset == Option.None
      && size == 16 && !mono && hinting == AutoMedium && color == White && renderCount == 2
      && borderColor == Black && !borderStraight && shadowOffsetX == 0 && shadowOffsetY == 0
      && shadowColor == TranslucentBlack && spaceX == 0 && spaceY == 0
      && padTop == 0 && padLeft == 0 && padBottom == 0 && padRight == 0
      && characters == DEFAULT_CHARS && kerning && !flip && !genMipMaps
      && minFilter == Nearest && magFilter == Nearest && !incremental
    }

    /** `new Configuration()`. */
    constructor ()
      ensures IsDefault()
    {
      name := Option.None;
      pageWidth, pageHeight := -1, -1;
      fntFormat := "txt";
      bold, italic, unicode := false, false, true;
      stretchH := 100;
      charset := Option.None;
      size := 16;
      mono := false;
      hinting := AutoMedium;
      color := White;
      renderCount := 2;
      borderColor := Black;
      borderStraight := false;
      shadowOffsetX, shadowOffsetY := 0, 0;
      shadowColor := TranslucentBlack;
      spaceX, spaceY := 0, 0;
      padTop, padLeft, padBottom, padRight := 0, 0, 0, 0;
      characters := DEFAULT_CHARS;
      kerning := true;
      flip, genMipMaps := false, false;
      minFilter, magFilter := Nearest, Nearest;
      incremental := false;
    }
  }
}
