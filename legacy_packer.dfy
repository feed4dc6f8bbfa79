/** The output planning of the earlier packer, `BMFontPacker.process`: the same base name and page
    names as the current packer, absolute paths built by joining the directory and the name with '/',
    existence checks of every page and then of the descriptor before anything is written, and an
    exception for null settings. */
module LegacyPacker {
  import opened Wrappers
  import opened JavaText
  import opened Config
  import opened Packer
  import LegacyFntWriter

  /** `CODE_SUCCESS` and `CODE_FILE_EXISTS` have the values of the current packer's exit codes. */
  const CODE_SUCCESS: int := 0
  const CODE_FILE_EXISTS: int := 1

  /** What `error` throws for null settings. */
  const NULL_SETTINGS: string := "[BMFontPacker] Settings cannot be null."

  /** The base name: the configured name unless it is null or shorter than one character, in which case
      the source file's name without its extension. */
  function LegacyBaseName(name: Option<string>, stem: string): string
  {
    if name == Option.None || |name.value| < 1 then stem else name.value
  }

  /** The legacy test is the current packer's `stringNotEmpty` test. */
  lemma LegacyBaseNameAgrees(name: Option<string>, stem: string)
    ensures LegacyBaseName(name, stem) == BaseName(name, stem)
  {
  }

  /** `Gdx.files.absolute(dir + "/" + name)`. */
  function AbsolutePath(dir: string, name: string): string
  {
    dir + "/" + name
  }

  /** The path of page `i` of `count`. */
  function PagePath(dir: string, base: string, count: nat, i: nat): string
  {
    AbsolutePath(dir, base + PageSuffix(count, i))
  }

  /** The planned page files, in page order. */
  function LegacyPagePaths(dir: string, base: string, count: nat): (paths: seq<string>)
    ensures |paths| == count
  {
    seq(count, i requires 0 <= i < count => PagePath(dir, base, count, i))
  }

  function LegacyFntPath(dir: string, base: string): string
  {
    AbsolutePath(dir, base + ".fnt")
  }

  /** What a run with non-null settings does: refuse when overriding is off and a planned file exists,
      otherwise write every page and then the descriptor in the platform's default charset; either way
      the font is disposed of once. */
  function LegacyExpected(stem: string, dir: string, settings: Configuration, override: bool, pageCount: nat,
                          data: LegacyFntWriter.FontData, present: string -> bool): Outcome
    reads settings
  {
    var base := LegacyBaseName(settings.name, stem);
    var paths := LegacyPagePaths(dir, base, pageCount);
    var fnt := LegacyFntPath(dir, base);
    if !override && (AnyExists(present, paths) || present(fnt)) then Outcome(CODE_FILE_EXISTS, [], 1)
    else
      Outcome(CODE_SUCCESS,
        PngWrites(paths)
        + [FntWrite(fnt, LegacyFntWriter.Document(settings, data, Names(paths), FileName(fnt)), Option.None)],
        1)
  }

  // ---------------------------------------------------------------- process

  /** `process(srcFile, dstDir, settings, override)`: the rasterizer has produced `pageCount` pages and
      `data`, and `present` tells which paths exist. Null settings raise before anything else. */
  method LegacyProcess(stem: string, dir: string, settings: Configuration?, override: bool, pageCount: nat,
                       data: LegacyFntWriter.FontData, present: string -> bool)
    returns (r: Result<Outcome, string>)
    ensures settings == null ==> r == Failure(NULL_SETTINGS)
    ensures settings != null ==> r == Success(LegacyExpected(stem, dir, settings, override, pageCount, data, present))
  {
    if settings == null {
      return Failure(NULL_SETTINGS);
    }
    var fileName := LegacyBaseName(settings.name, stem);
    var disposals := 0;
    var pageExists := CheckPages(dir, fileName, pageCount, override, present);
    if pageExists {
      LegacyExpectedRefusal(stem, dir, settings, override, pageCount, data, present);
      disposals := disposals + 1;
      return Success(Outcome(CODE_FILE_EXISTS, [], disposals));
    }
    var fntFile := LegacyFntPath(dir, fileName);
    if present(fntFile) && !override {
      LegacyExpectedRefusal(stem, dir, settings, override, pageCount, data, present);
      disposals := disposals + 1;
      return Success(Outcome(CODE_FILE_EXISTS, [], disposals));
    }
    LegacyExpectedSuccess(stem, dir, settings, override, pageCount, data, present);
    var pageFiles, writes := WritePages(dir, fileName, pageCount);
    var text := LegacyFntWriter.ProcessFnt(data, Names(pageFiles[..]), FileName(fntFile), settings);
    writes := writes + [FntWrite(fntFile, text, Option.None)];
    disposals := disposals + 1;
    r := Success(Outcome(CODE_SUCCESS, writes, disposals));
  }

  /** The check loop: every page path in turn, refused when it exists and overriding is off. */
  method CheckPages(dir: string, fileName: string, pageCount: nat, override: bool, present: string -> bool)
    returns (found: bool)
    ensures found <==> !override && AnyExists(present, LegacyPagePaths(dir, fileName, pageCount))
  {
    ghost var paths := LegacyPagePaths(dir, fileName, pageCount);
    var i := 0;
    while i < pageCount
      invariant 0 <= i <= pageCount
      invariant override || forall m :: 0 <= m < i ==> !present(paths[m])
    {
      var pageFile := AbsolutePath(dir, fileName + (if pageCount == 1 then ".png" else "_" + IntToString(i) + ".png"));
      if present(pageFile) && !override {
        assert paths[i] == pageFile;
        return true;
      }
      i := i + 1;
    }
    found := false;
  }

  /** The write loop: the path of every page, recorded in `pageFiles` and written, in page order. */
  method WritePages(dir: string, fileName: string, pageCount: nat)
    returns (pageFiles: array<string>, writes: seq<FileWrite>)
    ensures fresh(pageFiles)
    ensures pageFiles[..] == LegacyPagePaths(dir, fileName, pageCount)
    ensures writes == PngWrites(LegacyPagePaths(dir, fileName, pageCount))
  {
    ghost var paths := LegacyPagePaths(dir, fileName, pageCount);
    pageFiles := new string[pageCount];
    writes := [];
    var i := 0;
    while i < pageCount
      invariant 0 <= i <= pageCount
      invariant pageFiles[..i] == paths[..i]
      invariant writes == PngWrites(paths[..i])
    {
      var pageFile := AbsolutePath(dir, fileName + (if pageCount == 1 then ".png" else "_" + IntToString(i) + ".png"));
      pageFiles[i] := pageFile;
      writes := writes + [PngWrite(pageFile, i)];
      assert pageFiles[..i + 1] == pageFiles[..i] + [pageFiles[i]];
      assert paths[..i + 1] == paths[..i] + [paths[i]];
      i := i + 1;
    }
    assert pageFiles[..] == pageFiles[..i];
    assert paths[..i] == paths;
  }

  /** The outcome of a run that finds no file in its way. */
  lemma LegacyExpectedSuccess(stem: string, dir: string, settings: Configuration, override: bool, pageCount: nat,
                              data: LegacyFntWriter.FontData, present: string -> bool)
    requires var base := LegacyBaseName(settings.name, stem);
      override || !(AnyExists(present, LegacyPagePaths(dir, base, pageCount)) || present(LegacyFntPath(dir, base)))
    ensures var base := LegacyBaseName(settings.name, stem); var paths := LegacyPagePaths(dir, base, pageCount);
      var fnt := LegacyFntPath(dir, base);
      LegacyExpected(stem, dir, settings, override, pageCount, data, present)
      == Outcome(CODE_SUCCESS,
           PngWrites(paths)
           + [FntWrite(fnt, LegacyFntWriter.Document(settings, data, Names(paths), FileName(fnt)), Option.None)],
           1)
  {
  }

  /** The outcome of a run that finds a file in its way. */
  lemma LegacyExpectedRefusal(stem: string, dir: string, settings: Configuration, override: bool, pageCount: nat,
                              data: LegacyFntWriter.FontData, present: string -> bool)
    requires var base := LegacyBaseName(settings.name, stem);
      !override && (AnyExists(present, LegacyPagePaths(dir, base, pageCount)) || present(LegacyFntPath(dir, base)))
    ensures LegacyExpected(stem, dir, settings, override, pageCount, data, present) == Outcome(CODE_FILE_EXISTS, [], 1)
  {
  }

  // ---------------------------------------------------------------- what a run does

  /** A run ends in `CODE_FILE_EXISTS`, having written nothing, exactly when overriding is off and a
      planned page or the descriptor exists; it ends in `CODE_SUCCESS` otherwise; either way the font is
      disposed of once. */
  lemma LegacyRefusesExactlyWhenAFileExists(stem: string, dir: string, settings: Configuration, override: bool,
                                            pageCount: nat, data: LegacyFntWriter.FontData, present: string -> bool)
    ensures var o := LegacyExpected(stem, dir, settings, override, pageCount, data, present);
      var base := LegacyBaseName(settings.name, stem);
      (o.code == CODE_FILE_EXISTS <==>
        !override && (AnyExists(present, LegacyPagePaths(dir, base, pageCount)) || present(LegacyFntPath(dir, base))))
      && (o.code == CODE_SUCCESS <==> o.code != CODE_FILE_EXISTS)
      && (o.code == CODE_FILE_EXISTS ==> o.writes == [])
      && o.disposals == 1
  {
  }

  /** A successful run writes page `i` to the `i`-th planned path, for every page in order, and then the
      descriptor as the last write. */
  lemma LegacySuccessWritesPagesThenDescriptor(stem: string, dir: string, settings: Configuration, override: bool,
                                               pageCount: nat, data: LegacyFntWriter.FontData,
                                               present: string -> bool)
    requires LegacyExpected(stem, dir, settings, override, pageCount, data, present).code == CODE_SUCCESS
    ensures var o := LegacyExpected(stem, dir, settings, override, pageCount, data, present);
      var base := LegacyBaseName(settings.name, stem);
      |o.writes| == pageCount + 1
      && (forall i :: 0 <= i < pageCount ==> o.writes[i] == PngWrite(LegacyPagePaths(dir, base, pageCount)[i], i))
      && o.writes[pageCount] == FntWrite(LegacyFntPath(dir, base), o.writes[pageCount].text, Option.None)
  {
    var base := LegacyBaseName(settings.name, stem);
    var paths := LegacyPagePaths(dir, base, pageCount);
    var fnt := LegacyFntPath(dir, base);
    LegacyExpectedSuccess(stem, dir, settings, override, pageCount, data, present);
    var pngs := PngWrites(paths);
    var last := FntWrite(fnt, LegacyFntWriter.Document(settings, data, Names(paths), FileName(fnt)), Option.None);
    assert forall i :: 0 <= i < pageCount ==> (pngs + [last])[i] == pngs[i];
    assert (pngs + [last])[pageCount] == last;
  }

  /** With overriding on (the three-argument `process`), nothing stops a run. */
  lemma LegacyOverrideAlwaysSucceeds(stem: string, dir: string, settings: Configuration, pageCount: nat,
                                     data: LegacyFntWriter.FontData, present: string -> bool)
    ensures LegacyExpected(stem, dir, settings, true, pageCount, data, present).code == CODE_SUCCESS
  {
  }

  /** Apart from how the directory is joined, both packers plan the same files: the path of each under
      a non-empty directory is the same. */
  lemma LegacyPathsAgree(dir: string, base: string, count: nat)
    requires dir != ""
    ensures LegacyPagePaths(dir, base, count) == PagePaths(dir, base, count)
    ensures LegacyFntPath(dir, base) == FntPath(dir, base)
  {
  }
}
