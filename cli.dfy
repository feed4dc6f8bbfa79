/** The picocli front end `GdxBMFont`: the six converters that turn option text into values, and `call`,
    which copies the parsed options onto a fresh packer configuration field by field and hands it to
    the packer. The options arrive already converted (picocli's dispatch is not modelled); the text the
    character files hold is a parameter. */
module Cli {
  import opened Wrappers
  import opened JavaText
  import opened Utils
  import opened Config

  /** Why a converter throws: `TypeConversionException("Parameter count mismatch!")`,
      `TypeConversionException("Parameter type mismatch!")`, or `NumberFormatException` from parsing. */
  datatype ConversionError = CountMismatch | TypeMismatch | NumberFormat

  /** `IntIntWrapper`. */
  datatype Pair = Pair(arg0: int32, arg1: int32)

  /** `IntIntIntIntWrapper`. */
  datatype Quad = Quad(arg0: int32, arg1: int32, arg2: int32, arg3: int32)

  // ---------------------------------------------------------------- integer tuples

  /** Every field parsed by `Integer.parseInt`, or None when one of them is not a number. */
  function ParseInts(fs: seq<string>): (r: Option<seq<int32>>)
    ensures r.Some? ==> |r.value| == |fs| && forall i :: 0 <= i < |fs| ==> ParseInt(fs[i]) == Some(r.value[i])
    ensures r.None? ==> exists i :: 0 <= i < |fs| && ParseInt(fs[i]).None?
  {
    if fs == [] then Some([])
    else
      match ParseInt(fs[0])
      case None => Option.None
      case Some(v) =>
        match ParseInts(fs[1..])
        case None => Option.None
        case Some(vs) => Some([v] + vs)
  }

  /** The shared body of the tuple converters: every space removed, split at ',' with Java's `split`,
      exactly `n` fields required, and each parsed as an `int`. */
  function ParseTuple(value: string, n: nat): (r: Result<seq<int32>, ConversionError>)
    ensures r.Success? ==> |r.value| == n
  {
    var fs := Split(RemoveChar(value, ' '), ',');
    if |fs| != n then Failure(CountMismatch)
    else
      match ParseInts(fs)
      case None => Failure(NumberFormat)
      case Some(ns) => Success(ns)
  }

  /** `IntIntWrapperConverter.convert`. */
  function ParsePair(value: string): (r: Result<Pair, ConversionError>)
    ensures r.Success? <==> ParseTuple(value, 2).Success?
    ensures r.Success? ==> [r.value.arg0, r.value.arg1] == ParseTuple(value, 2).value
  {
    match ParseTuple(value, 2)
    case Failure(e) => Failure(e)
    case Success(ns) => Success(Pair(ns[0], ns[1]))
  }

  /** `IntIntIntIntWrapperConverter.convert`. */
  function ParseQuad(value: string): (r: Result<Quad, ConversionError>)
    ensures r.Success? <==> ParseTuple(value, 4).Success?
    ensures r.Success? ==> [r.value.arg0, r.value.arg1, r.value.arg2, r.value.arg3] == ParseTuple(value, 4).value
  {
    match ParseTuple(value, 4)
    case Failure(e) => Failure(e)
    case Success(ns) => Success(Quad(ns[0], ns[1], ns[2], ns[3]))
  }

  /** The decimal text of each number. */
  function Numerals(ns: seq<int>): (fs: seq<string>)
    ensures |fs| == |ns| && forall i :: 0 <= i < |ns| ==> fs[i] == IntToString(ns[i])
  {
    seq(|ns|, i requires 0 <= i < |ns| => IntToString(ns[i]))
  }

  lemma {:induction false} JoinIntsIsJoin(ns: seq<int>, sep: char)
    ensures JoinInts(ns, sep) == Join(Numerals(ns), sep)
  {
    if |ns| > 1 {
      JoinIntsIsJoin(ns[1..], sep);
      assert Numerals(ns)[1..] == Numerals(ns[1..]);
    }
  }

  lemma {:induction false} JoinSnocEmpty(fs: seq<string>, sep: char)
    requires |fs| > 0
    ensures Join(fs + [""], sep) == Join(fs, sep) + [sep]
  {
    if |fs| > 1 {
      JoinSnocEmpty(fs[1..], sep);
      assert (fs + [""])[1..] == fs[1..] + [""];
    }
  }

  /** What `StringBuilder.append(int)` writes holds neither a space nor a comma. */
  lemma NumeralsPlain(ns: seq<int>)
    ensures var j := JoinInts(ns, ','); ' ' !in j
    ensures forall i :: 0 <= i < |ns| ==> ',' !in Numerals(ns)[i] && Numerals(ns)[i] != ""
  {
    JoinIntsIsJoin(ns, ',');
    forall i | 0 <= i < |ns|
      ensures ',' !in Numerals(ns)[i] && ' ' !in Numerals(ns)[i] && Numerals(ns)[i] != ""
    {
      IntToStringChars(ns[i]);
    }
    JoinHasNo(Numerals(ns), ',', ' ');
  }

  lemma {:induction false} JoinHasNo(fs: seq<string>, sep: char, c: char)
    requires c != sep && forall i :: 0 <= i < |fs| ==> c !in fs[i]
    ensures c !in Join(fs, sep)
  {
    if |fs| > 1 {
      JoinHasNo(fs[1..], sep, c);
    }
  }

  /** Numbers written with commas between them convert back to themselves when there are `n` of them
      and fail with a count mismatch otherwise. */
  lemma TupleRoundTrip(ns: seq<int32>, n: nat)
    requires |ns| > 0
    ensures ParseTuple(JoinInts(ns, ','), n) == if |ns| == n then Success(ns) else Failure(CountMismatch)
  {
    var fs := Numerals(ns);
    NumeralsPlain(ns);
    JoinIntsIsJoin(ns, ',');
    SplitJoin(fs, ',');
    var r := ParseInts(fs);
    forall i | 0 <= i < |ns|
      ensures ParseInt(fs[i]) == Some(ns[i])
    {
      ParseIntRoundTrip(ns[i]);
    }
    if |ns| == n {
      assert r.Some?;
      assert r.value == ns;
    }
  }

  /** Java's `split` drops trailing empty fields, so a comma after the last number changes nothing. */
  lemma TupleTrailingComma(ns: seq<int32>, n: nat)
    requires |ns| > 0
    ensures ParseTuple(JoinInts(ns, ',') + ",", n) == ParseTuple(JoinInts(ns, ','), n)
  {
    var fs := Numerals(ns);
    NumeralsPlain(ns);
    JoinIntsIsJoin(ns, ',');
    JoinSnocEmpty(fs, ',');
    var s := JoinInts(ns, ',') + ",";
    assert ' ' !in s;
    FieldsOfJoin(fs + [""], ',');
    assert (fs + [""])[|fs|] == "";
    assert ',' in s by { assert s[|s| - 1] == ','; }
    assert Split(s, ',') == DropTrailingEmpty(fs + [""]);
    assert (fs + [""])[..|fs|] == fs;
    assert DropTrailingEmpty(fs + [""]) == DropTrailingEmpty(fs);
    SplitJoin(fs, ',');
  }

  /** Prepending a number to a non-empty list prepends its text and a separator. */
  lemma JoinIntsCons(n: int, ns: seq<int>, sep: char)
    requires |ns| > 0
    ensures JoinInts([n] + ns, sep) == IntToString(n) + [sep] + JoinInts(ns, sep)
  {
    assert ([n] + ns)[1..] == ns;
  }

  /** Two numbers with a comma between them are a pair, also with a trailing comma. */
  lemma PairRoundTrip(a: int32, b: int32)
    ensures ParsePair(IntToString(a) + "," + IntToString(b)) == Success(Pair(a, b))
    ensures ParsePair(IntToString(a) + "," + IntToString(b) + ",") == Success(Pair(a, b))
  {
    JoinIntsCons(a, [b], ',');
    assert [a] + [b] == [a, b];
    TupleRoundTrip([a, b], 2);
    TupleTrailingComma([a, b], 2);
  }

  /** One number, or three, is not a pair. */
  lemma PairCountMismatch(a: int32, b: int32, c: int32)
    ensures ParsePair(IntToString(a)) == Failure(CountMismatch)
    ensures ParsePair(JoinInts([a, b, c], ',')) == Failure(CountMismatch)
  {
    TupleRoundTrip([a], 2);
    TupleRoundTrip([a, b, c], 2);
  }

  /** Four numbers with commas between them are a quad, in order; two are not. */
  lemma QuadRoundTrip(a: int32, b: int32, c: int32, d: int32)
    ensures ParseQuad(JoinInts([a, b, c, d], ',')) == Success(Quad(a, b, c, d))
    ensures ParseQuad(IntToString(a) + "," + IntToString(b)) == Failure(CountMismatch)
  {
    TupleRoundTrip([a, b, c, d], 4);
    JoinIntsCons(a, [b], ',');
    assert [a] + [b] == [a, b];
    TupleRoundTrip([a, b], 4);
  }

  /** Every space is removed before the text is split, wherever it stands. */
  lemma TupleIgnoresSpaces(a: string, b: string, n: nat)
    ensures ParseTuple(a + " " + b, n) == ParseTuple(a + b, n)
  {
    assert RemoveChar(a + " " + b, ' ') == RemoveChar(a + b, ' ') by {
      RemoveCharAppend(a + " ", b, ' ');
      RemoveCharAppend(a, " ", ' ');
      RemoveCharAppend(a, b, ' ');
    }
  }

  // ---------------------------------------------------------------- format

  /** `FntFormatConverter.convert`: the text itself when its lower-case form is "txt" or "xml". */
  function ParseFormat(value: string): (r: Result<string, ConversionError>)
    ensures r.Success? ==> r.value == value
    ensures r.Failure? ==> r.error == TypeMismatch
  {
    if ToLower(value) == "txt" || ToLower(value) == "xml" then Success(value) else Failure(TypeMismatch)
  }

  /** A format is accepted exactly when it is "txt" or "xml" up to case, and it is passed on in the case
      it was given in. */
  lemma FormatAccepted(value: string)
    ensures ParseFormat(value).Success? <==> EqualsIgnoreCase(value, "txt") || EqualsIgnoreCase(value, "xml")
    ensures ParseFormat(value).Success? ==> ParseFormat(value).value == value
  {
    EqualsIgnoreCaseIsLowerEquality(value, "txt");
    EqualsIgnoreCaseIsLowerEquality(value, "xml");
    assert ToLower("txt") == "txt";
    assert ToLower("xml") == "xml";
  }

  // ---------------------------------------------------------------- colour

  /** `ColorConverter.convert`: every '#' removed, then every "0x", and the rest parsed by
      `Integer.parseUnsignedInt(value, 16)` into the packed RGBA8888 value of the colour. */
  function ParseColor(value: string): (r: Result<Color, ConversionError>)
    ensures r.Success? ==> r.value.Rgba8888? && r.value.bits < TWO_32
    ensures r.Failure? ==> r.error == NumberFormat
  {
    match ParseUnsignedHex(RemoveHexPrefixes(RemoveChar(value, '#')))
    case None => Failure(NumberFormat)
    case Some(bits) => Success(Rgba8888(bits))
  }

  /** A 32-bit value written in hexadecimal, bare or after '#' or "0x", is read back as that colour. */
  lemma ColorRoundTrip(bits: nat)
    requires bits < TWO_32
    ensures ParseColor(NatToHex(bits)) == Success(Rgba8888(bits))
    ensures ParseColor("#" + NatToHex(bits)) == Success(Rgba8888(bits))
    ensures ParseColor("0x" + NatToHex(bits)) == Success(Rgba8888(bits))
  {
    var h := NatToHex(bits);
    assert '#' !in h && 'x' !in h by {
      assert forall i :: 0 <= i < |h| ==> IsHexDigit(h[i]);
    }
    assert RemoveChar("#" + h, '#') == h by {
      assert ("#" + h)[1..] == h;
    }
    assert RemoveHexPrefixes("0x" + h) == h by {
      assert ("0x" + h)[2..] == h;
    }
    ParseUnsignedHexRoundTrip(bits);
  }

  /** Every '#' is dropped wherever it stands, between the digits as well as in front of them. */
  lemma ColorIgnoresHash(a: string, b: string)
    ensures ParseColor(a + "#" + b) == ParseColor(a + b)
  {
    assert RemoveChar(a + "#" + b, '#') == RemoveChar(a + b, '#') by {
      RemoveCharAppend(a + "#", b, '#');
      RemoveCharAppend(a, "#", '#');
      RemoveCharAppend(a, b, '#');
    }
  }

  /** Every "0x" standing between texts without 'x' is dropped, between the digits as well as in front
      of them. */
  lemma ColorIgnoresHexPrefix(a: string, b: string)
    requires 'x' !in a && 'x' !in b
    ensures ParseColor(a + "0x" + b) == ParseColor(a + b)
  {
    var a', b' := RemoveChar(a, '#'), RemoveChar(b, '#');
    assert RemoveChar(a + "0x" + b, '#') == a' + "0x" + b' by {
      RemoveCharAppend(a + "0x", b, '#');
      RemoveCharAppend(a, "0x", '#');
      assert RemoveChar("0x", '#') == "0x";
    }
    assert RemoveChar(a + b, '#') == a' + b' by {
      RemoveCharAppend(a, b, '#');
    }
    assert RemoveHexPrefixes(a' + "0x" + b') == RemoveHexPrefixes(a' + b') by {
      RemoveCharAdds(a, '#', 'x');
      RemoveCharAdds(b, '#', 'x');
      assert a' + "0x" + b' == a' + ("0x" + b');
      RemoveHexPrefixesAfterPlain(a', "0x" + b');
      assert ("0x" + b')[2..] == b';
      RemoveHexPrefixesAfterPlain(a', b');
    }
  }

  /** A character that is neither a hexadecimal digit nor one of '#', 'x' and '+' is never removed, so
      the text is refused as a number. */
  lemma ColorRefusesStrayCharacter(value: string, i: nat)
    requires i < |value|
    requires !IsHexDigit(value[i]) && value[i] !in "#x+"
    ensures ParseColor(value) == Failure(NumberFormat)
  {
    var d := value[i];
    var s := RemoveHexPrefixes(RemoveChar(value, '#'));
    RemoveCharKeeps(value, '#', d);
    RemoveHexPrefixesKeeps(RemoveChar(value, '#'), d);
    if |s| > 0 && s[0] != '-' {
      var digits := if s[0] == '+' then s[1..] else s;
      assert d in digits by {
        var k :| 0 <= k < |s| && s[k] == d;
        if s[0] == '+' { assert digits[k - 1] == d; }
      }
      assert !AllHexDigits(digits);
    }
  }

  /** More than 32 bits of hexadecimal digits do not make a colour. */
  lemma ColorOverflow(bits: nat)
    requires bits >= TWO_32
    ensures ParseColor(NatToHex(bits)) == Failure(NumberFormat)
  {
    var h := NatToHex(bits);
    assert '#' !in h && 'x' !in h by {
      assert forall i :: 0 <= i < |h| ==> IsHexDigit(h[i]);
    }
    NatToHexValue(bits);
  }

  // ---------------------------------------------------------------- enumerations

  /** A name's length, its first letter and its letter at `k`, the letters lower-cased. */
  function Sig(s: string, k: nat): (nat, char, char)
  {
    (|s|, if |s| > 0 then LowerChar(s[0]) else ' ', if k < |s| then LowerChar(s[k]) else ' ')
  }

  /** Strings equal up to case have the same signature. */
  lemma SameLowerSameSig(x: string, y: string, k: nat)
    ensures ToLower(x) == ToLower(y) ==> Sig(x, k) == Sig(y, k)
  {
    if ToLower(x) == ToLower(y) {
      assert |x| == |y|;
      assert |x| > 0 ==> ToLower(x)[0] == ToLower(y)[0];
      assert k < |x| ==> ToLower(x)[k] == ToLower(y)[k];
    }
  }

  /** The position of each hinting constant in `values()`. */
  function HintingOrdinal(h: Hinting): (k: nat)
    ensures k < |HintingValues| && HintingValues[k] == h
  {
    match h
    case None => 0
    case Slight => 1
    case Medium => 2
    case Full => 3
    case AutoSlight => 4
    case AutoMedium => 5
    case AutoFull => 6
  }

  /** The hinting constant a name's length, first letter and fifth letter (both lower-cased) select. */
  function HintingOfSig(t: (nat, char, char)): Hinting
  {
    if t.0 == 4 then (if t.1 == 'n' then Hinting.None else Full)
    else if t.0 == 6 then (if t.1 == 's' then Slight else Medium)
    else if t.0 == 8 then AutoFull
    else if t.2 == 's' then AutoSlight
    else AutoMedium
  }

  /** No two hinting constants have the same name up to case. */
  lemma HintingNamesDistinct(a: Hinting, b: Hinting)
    ensures ToLower(HintingName(a)) == ToLower(HintingName(b)) ==> a == b
  {
    var x, y := HintingName(a), HintingName(b);
    assert HintingOfSig(Sig(x, 4)) == a;
    assert HintingOfSig(Sig(y, 4)) == b;
    SameLowerSameSig(x, y, 4);
  }

  /** `HintingConverter.convert`: the first constant of `values()` whose lower-cased name is the
      lower-cased text. */
  method ParseHinting(value: string) returns (r: Result<Hinting, ConversionError>)
    ensures r.Success? <==> exists h :: ToLower(HintingName(h)) == ToLower(value)
    ensures forall h :: ToLower(HintingName(h)) == ToLower(value) ==> r == Success(h)
    ensures r.Failure? ==> r.error == TypeMismatch
  {
    var lower := ToLower(value);
    var i := 0;
    while i < |HintingValues|
      invariant 0 <= i <= |HintingValues|
      invariant forall k :: 0 <= k < i ==> ToLower(HintingName(HintingValues[k])) != lower
    {
      var hinting := HintingValues[i];
      if ToLower(HintingName(hinting)) == lower {
        forall h | ToLower(HintingName(h)) == lower
          ensures h == hinting
        {
          HintingNamesDistinct(h, hinting);
        }
        return Success(hinting);
      }
      i := i + 1;
    }
    forall h
      ensures ToLower(HintingName(h)) != lower
    {
      assert HintingValues[HintingOrdinal(h)] == h;
    }
    r := Failure(TypeMismatch);
  }

  /** The position of each filter constant in `values()`. */
  function TextureFilterOrdinal(f: TextureFilter): (k: nat)
    ensures k < |TextureFilterValues| && TextureFilterValues[k] == f
  {
    match f
    case Nearest => 0
    case Linear => 1
    case MipMap => 2
    case MipMapNearestNearest => 3
    case MipMapLinearNearest => 4
    case MipMapNearestLinear => 5
    case MipMapLinearLinear => 6
  }

  /** The filter constant a name's length, first letter and seventh letter (both lower-cased) select. */
  function TextureFilterOfSig(t: (nat, char, char)): TextureFilter
  {
    if t.0 == 7 then Nearest
    else if t.0 == 6 then (if t.1 == 'l' then Linear else MipMap)
    else if t.0 == 20 then MipMapNearestNearest
    else if t.0 == 18 then MipMapLinearLinear
    else if t.2 == 'l' then MipMapLinearNearest
    else MipMapNearestLinear
  }

  /** No two filter constants have the same name up to case. */
  lemma TextureFilterNamesDistinct(a: TextureFilter, b: TextureFilter)
    ensures ToLower(TextureFilterName(a)) == ToLower(TextureFilterName(b)) ==> a == b
  {
    var x, y := TextureFilterName(a), TextureFilterName(b);
    assert TextureFilterOfSig(Sig(x, 6)) == a;
    assert TextureFilterOfSig(Sig(y, 6)) == b;
    SameLowerSameSig(x, y, 6);
  }

  /** `TextureFilterConverter.convert`: the first constant of `values()` whose lower-cased name is the
      lower-cased text. */
  method ParseTextureFilter(value: string) returns (r: Result<TextureFilter, ConversionError>)
    ensures r.Success? <==> exists f :: ToLower(TextureFilterName(f)) == ToLower(value)
    ensures forall f :: ToLower(TextureFilterName(f)) == ToLower(value) ==> r == Success(f)
    ensures r.Failure? ==> r.error == TypeMismatch
  {
    var lower := ToLower(value);
    var i := 0;
    while i < |TextureFilterValues|
      invariant 0 <= i <= |TextureFilterValues|
      invariant forall k :: 0 <= k < i ==> ToLower(TextureFilterName(TextureFilterValues[k])) != lower
    {
      var filter := TextureFilterValues[i];
      if ToLower(TextureFilterName(filter)) == lower {
        forall f | ToLower(TextureFilterName(f)) == lower
          ensures f == filter
        {
          TextureFilterNamesDistinct(f, filter);
        }
        return Success(filter);
      }
      i := i + 1;
    }
    forall f
      ensures ToLower(TextureFilterName(f)) != lower
    {
      assert TextureFilterValues[TextureFilterOrdinal(f)] == f;
    }
    r := Failure(TypeMismatch);
  }

  // ---------------------------------------------------------------- call

  /** The options after conversion: an absent option is None; `charactersFiles` is the text
      `readCharsFromFiles` returns for the given files. The float options (gamma, border width and
      gamma) are not modelled. */
  datatype Options = Options(
    name: Option<string>, pageSize: Option<Pair>, fntFormat: Option<string>, size: int32, mono: bool,
    hinting: Option<Hinting>, color: Option<Color>, renderCount: int32, borderColor: Option<Color>,
    borderStraight: bool, shadowOffsets: Option<Pair>, shadowColor: Option<Color>, spacing: Option<Pair>,
    paddings: Option<Quad>, characters: Option<string>, charactersFiles: Option<string>, kerning: bool,
    flip: bool, genMipMaps: bool, minFilter: Option<TextureFilter>, magFilter: Option<TextureFilter>,
    incremental: bool, override: bool)

  /** The value of an optional setting, or `default` when it is absent. */
  function OrElse<T>(o: Option<T>, otherwise: T): (r: T)
    ensures o.Some? ==> r == o.value
    ensures o.None? ==> r == otherwise
  {
    if o.Some? then o.value else otherwise
  }

  /** The characters before the files are read: the `characters` option when it is non-empty,
      otherwise the defaults. */
  function GivenCharacters(characters: Option<string>): string
  {
    if StringNotEmpty(characters) then characters.value else DEFAULT_CHARS
  }

  /** The characters of the configuration: the given ones and, with character files, those followed by
      the files' characters, each kept once in order of first occurrence. */
  function CharactersOf(characters: Option<string>, files: Option<string>): string
  {
    if files.Some? then RemoveDuplicateChars(GivenCharacters(characters) + files.value)
    else GivenCharacters(characters)
  }

  /** The configuration `call` hands to the packer: each tuple option sets its fields together, each
      other option given on the command line replaces its field, `name` and `characters` only when
      non-empty, and the fields no option names keep their defaults. */
  predicate Configured(config: Configuration, opts: Options)
    reads config
  {
    Untouched(config) && TextApplied(config, opts) && SwitchesApplied(config, opts)
    && OffsetsApplied(config, opts) && LookApplied(config, opts)
  }

  /** The fields no option sets, at their defaults. */
  predicate Untouched(config: Configuration)
    reads config`bold, config`italic, config`unicode, config`stretchH, config`charset
  {
    !config.bold && !config.italic && config.unicode && config.stretchH == 100 && config.charset == Option.None
  }

  predicate TextAtDefaults(config: Configuration)
    reads config`pageWidth, config`pageHeight, config`characters, config`fntFormat, config`name
  {
    config.pageWidth == -1 && config.pageHeight == -1 && config.characters == DEFAULT_CHARS
    && config.fntFormat == "txt" && config.name == Option.None
  }

  /** The page size sets width and height together; the characters are those of `CharactersOf`; the
      format replaces the default when given, the name when non-empty. */
  predicate TextApplied(config: Configuration, opts: Options)
    reads config`pageWidth, config`pageHeight, config`characters, config`fntFormat, config`name
  {
    && config.pageWidth == (if opts.pageSize.Some? then opts.pageSize.value.arg0 else -1)
    && config.pageHeight == (if opts.pageSize.Some? then opts.pageSize.value.arg1 else -1)
    && config.characters == CharactersOf(opts.characters, opts.charactersFiles)
    && config.fntFormat == OrElse(opts.fntFormat, "txt")
    && config.name == (if StringNotEmpty(opts.name) then opts.name else Option.None)
  }

  /** The options that always carry a value (their command-line defaults when not given). */
  predicate SwitchesApplied(config: Configuration, opts: Options)
    reads config`borderStraight, config`flip, config`incremental, config`kerning, config`mono,
          config`renderCount, config`size, config`genMipMaps
  {
    && config.borderStraight == opts.borderStraight && config.flip == opts.flip
    && config.incremental == opts.incremental && config.kerning == opts.kerning && config.mono == opts.mono
    && config.renderCount == opts.renderCount && config.size == opts.size && config.genMipMaps == opts.genMipMaps
  }

  predicate OffsetsAtDefaults(config: Configuration)
    reads config`padTop, config`padLeft, config`padBottom, config`padRight, config`spaceX, config`spaceY,
          config`shadowOffsetX, config`shadowOffsetY
  {
    config.padTop == 0 && config.padLeft == 0 && config.padBottom == 0 && config.padRight == 0
    && config.spaceX == 0 && config.spaceY == 0 && config.shadowOffsetX == 0 && config.shadowOffsetY == 0
  }

  /** The paddings are top, left, bottom and right in that order; each tuple sets all its fields or none. */
  predicate OffsetsApplied(config: Configuration, opts: Options)
    reads config`padTop, config`padLeft, config`padBottom, config`padRight, config`spaceX, config`spaceY,
          config`shadowOffsetX, config`shadowOffsetY
  {
    && config.padTop == (if opts.paddings.Some? then opts.paddings.value.arg0 else 0)
    && config.padLeft == (if opts.paddings.Some? then opts.paddings.value.arg1 else 0)
    && config.padBottom == (if opts.paddings.Some? then opts.paddings.value.arg2 else 0)
    && config.padRight == (if opts.paddings.Some? then opts.paddings.value.arg3 else 0)
    && config.spaceX == (if opts.spacing.Some? then opts.spacing.value.arg0 else 0)
    && config.spaceY == (if opts.spacing.Some? then opts.spacing.value.arg1 else 0)
    && config.shadowOffsetX == (if opts.shadowOffsets.Some? then opts.shadowOffsets.value.arg0 else 0)
    && config.shadowOffsetY == (if opts.shadowOffsets.Some? then opts.shadowOffsets.value.arg1 else 0)
  }

  predicate LookAtDefaults(config: Configuration)
    reads config`color, config`borderColor, config`shadowColor, config`hinting, config`minFilter,
          config`magFilter
  {
    config.color == White && config.borderColor == Black && config.shadowColor == TranslucentBlack
    && config.hinting == AutoMedium && config.minFilter == Nearest && config.magFilter == Nearest
  }

  /** Each colour, the hinting and each filter replace their defaults when given. */
  predicate LookApplied(config: Configuration, opts: Options)
    reads config`color, config`borderColor, config`shadowColor, config`hinting, config`minFilter,
          config`magFilter
  {
    && config.color == OrElse(opts.color, White)
    && config.borderColor == OrElse(opts.borderColor, Black)
    && config.shadowColor == OrElse(opts.shadowColor, TranslucentBlack)
    && config.hinting == OrElse(opts.hinting, AutoMedium)
    && config.minFilter == OrElse(opts.minFilter, Nearest)
    && config.magFilter == OrElse(opts.magFilter, Nearest)
  }

  /** The first half of `call`: a fresh configuration, then the options copied onto it. The source
      assigns the fields one statement at a time; the methods below group those statements by the
      fields they touch, and no two groups touch the same field, so the grouping does not change the
      result. */
  method Configure(opts: Options) returns (config: Configuration)
    ensures fresh(config)
    ensures Configured(config, opts)
  {
    config := new Configuration();
    Apply(config, opts);
  }

  /** The options copied onto a configuration that holds the defaults, in two halves. */
  method Apply(config: Configuration, opts: Options)
    requires Untouched(config) && TextAtDefaults(config) && OffsetsAtDefaults(config) && LookAtDefaults(config)
    modifies config
    ensures Configured(config, opts)
  {
    ApplyTextAndSwitches(config, opts);
    ApplyOffsetsAndLook(config, opts);
  }

  method ApplyTextAndSwitches(config: Configuration, opts: Options)
    requires Untouched(config) && TextAtDefaults(config)
    modifies config`pageWidth, config`pageHeight, config`characters, config`fntFormat, config`name,
             config`borderStraight, config`flip, config`incremental, config`kerning, config`mono,
             config`renderCount, config`size, config`genMipMaps
    ensures Untouched(config) && TextApplied(config, opts) && SwitchesApplied(config, opts)
  {
    ApplyText(config, opts);
    ApplySwitches(config, opts);
  }

  method ApplyOffsetsAndLook(config: Configuration, opts: Options)
    requires Untouched(config) && OffsetsAtDefaults(config) && LookAtDefaults(config)
    modifies config`padTop, config`padLeft, config`padBottom, config`padRight, config`spaceX, config`spaceY,
             config`shadowOffsetX, config`shadowOffsetY,
             config`color, config`borderColor, config`shadowColor, config`hinting, config`minFilter,
             config`magFilter
    ensures Untouched(config) && OffsetsApplied(config, opts) && LookApplied(config, opts)
  {
    ApplyOffsets(config, opts);
    ApplyLook(config, opts);
  }

  /** The page size, the characters, the format and the name. */
  method ApplyText(config: Configuration, opts: Options)
    requires TextAtDefaults(config)
    modifies config`pageWidth, config`pageHeight, config`characters, config`fntFormat, config`name
    ensures TextApplied(config, opts)
  {
    if opts.pageSize.Some? {
      config.pageWidth := opts.pageSize.value.arg0;
      config.pageHeight := opts.pageSize.value.arg1;
    }
    if StringNotEmpty(opts.characters) {
      config.characters := opts.characters.value;
    }
    if opts.charactersFiles.Some? {
      config.characters := RemoveDuplicateChars(config.characters + opts.charactersFiles.value);
    }
    if opts.fntFormat.Some? {
      config.fntFormat := opts.fntFormat.value;
    }
    if StringNotEmpty(opts.name) {
      config.name := opts.name;
    }
  }

  /** The options copied unconditionally. */
  method ApplySwitches(config: Configuration, opts: Options)
    modifies config`borderStraight, config`flip, config`incremental, config`kerning, config`mono,
             config`renderCount, config`size, config`genMipMaps
    ensures SwitchesApplied(config, opts)
  {
    config.borderStraight := opts.borderStraight;
    config.flip := opts.flip;
    config.incremental := opts.incremental;
    config.kerning := opts.kerning;
    config.mono := opts.mono;
    config.renderCount := opts.renderCount;
    config.size := opts.size;
    config.genMipMaps := opts.genMipMaps;
  }

  /** The paddings, the spacing and the shadow offsets. */
  method ApplyOffsets(config: Configuration, opts: Options)
    requires OffsetsAtDefaults(config)
    modifies config`padTop, config`padLeft, config`padBottom, config`padRight, config`spaceX, config`spaceY,
             config`shadowOffsetX, config`shadowOffsetY
    ensures OffsetsApplied(config, opts)
  {
    if opts.paddings.Some? {
      config.padTop := opts.paddings.value.arg0;
      config.padLeft := opts.paddings.value.arg1;
      config.padBottom := opts.paddings.value.arg2;
      config.padRight := opts.paddings.value.arg3;
    }
    if opts.spacing.Some? {
      config.spaceX := opts.spacing.value.arg0;
      config.spaceY := opts.spacing.value.arg1;
    }
    if opts.shadowOffsets.Some? {
      config.shadowOffsetX := opts.shadowOffsets.value.arg0;
      config.shadowOffsetY := opts.shadowOffsets.value.arg1;
    }
  }

  /** The colours, the hinting and the filters. */
  method ApplyLook(config: Configuration, opts: Options)
    requires LookAtDefaults(config)
    modifies config`color, config`borderColor, config`shadowColor, config`hinting, config`minFilter,
             config`magFilter
    ensures LookApplied(config, opts)
  {
    if opts.color.Some? {
      config.color := opts.color.value;
    }
    if opts.borderColor.Some? {
      config.borderColor := opts.borderColor.value;
    }
    if opts.shadowColor.Some? {
      config.shadowColor := opts.shadowColor.value;
    }
    if opts.hinting.Some? {
      config.hinting := opts.hinting.value;
    }
    if opts.minFilter.Some? {
      config.minFilter := opts.minFilter.value;
    }
    if opts.magFilter.Some? {
      config.magFilter := opts.magFilter.value;
    }
  }
}
