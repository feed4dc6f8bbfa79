/** The output planning of `BitmapFontPacker.process`: the base name of the files, one PNG per glyph page
    and one `.fnt` descriptor next to them, and the refusal to overwrite an existing file. The
    rasterizer's output (the page count and the font data) and the file system's answer to "does this
    path exist" are parameters; the files the run writes and the number of times it disposes of the font
    are its result. */
module Packer {
  import opened Wrappers
  import opened JavaText
  import opened Utils
  import opened Config
  import FntWriter

  /** `ExitCode.SUCCESS`. */
  const SUCCESS: int := 0
  /** `ExitCode.FILE_EXISTS`. */
  const FILE_EXISTS: int := 1

  /** The message of the exception a null configuration raises, tagged as the default platform support
      tags it. */
  const NULL_CONFIG: string := "[BitmapFontPacker] config cannot be null."

  /** One file the run writes: a glyph page as a PNG, or the descriptor text in a charset (none for the
      platform default). */
  datatype FileWrite = PngWrite(path: string, page: nat) | FntWrite(path: string, text: string, charset: Option<string>)

  /** The exit code, the files written in order, and how many times the generated font was disposed of. */
  datatype Outcome = Outcome(code: int, writes: seq<FileWrite>, disposals: nat)

  // ---------------------------------------------------------------- planning

  /** The base name of the output files: the configured name when it is non-empty, otherwise the input
      file's name without its extension. */
  function BaseName(name: Option<string>, stem: string): string
  {
    if StringNotEmpty(name) then name.value else stem
  }

  /** What follows the base name of page `i`: `.png` for a font of one page, `_i.png` otherwise. */
  function PageSuffix(count: nat, i: nat): string
  {
    if count == 1 then ".png" else "_" + IntToString(i) + ".png"
  }

  /** `FileHandle.child(name)`: the name under the directory, or the name alone under an empty path. */
  function Child(dir: string, name: string): string
  {
    if dir == "" then name else dir + "/" + name
  }

  /** The planned page files, in page order. */
  function PagePaths(dir: string, base: string, count: nat): (paths: seq<string>)
    ensures |paths| == count
  {
    seq(count, i requires 0 <= i < count => Child(dir, base + PageSuffix(count, i)))
  }

  function FntPath(dir: string, base: string): string
  {
    Child(dir, base + ".fnt")
  }

  /** `FileHandle.name()`: what follows the last '/' of the path. */
  function FileName(path: string): string
  {
    path[LastIndexOf(path, '/') + 1..]
  }

  /** The names of the page files, as the descriptor lists them. */
  function Names(paths: seq<string>): (names: seq<string>)
    ensures |names| == |paths|
  {
    seq(|paths|, k requires 0 <= k < |paths| => FileName(paths[k]))
  }

  /** Some path of the list exists. */
  predicate AnyExists(present: string -> bool, paths: seq<string>)
  {
    exists k :: 0 <= k < |paths| && present(paths[k])
  }

  /** One PNG per page file, in page order. */
  function PngWrites(paths: seq<string>): (ws: seq<FileWrite>)
    ensures |ws| == |paths|
  {
    seq(|paths|, k requires 0 <= k < |paths| => PngWrite(paths[k], k))
  }

  /** What a run with a non-null configuration does: refuse when overriding is off and a planned file
      exists, otherwise write every page and then the descriptor; either way the font is disposed of
      once. */
  function Expected(stem: string, dir: string, config: Configuration, override: bool, pageCount: nat,
                    data: FntWriter.FontData, present: string -> bool): Outcome
    reads config
  {
    var base := BaseName(config.name, stem);
    var paths := PagePaths(dir, base, pageCount);
    var fnt := FntPath(dir, base);
    if !override && (AnyExists(present, paths) || present(fnt)) then Outcome(FILE_EXISTS, [], 1)
    else
      Outcome(SUCCESS,
        PngWrites(paths)
        + [FntWrite(fnt, FntWriter.Document(config, data, Names(paths), FileName(fnt)),
                    FntWriter.WriteCharset(config.charset))],
        1)
  }

  // ---------------------------------------------------------------- process

  /** `process(inputFile, outputDir, config, override)` from the null check of the configuration on:
      the rasterizer has produced `pageCount` pages and `data`, and `present` tells which paths exist. */
  method Process(stem: string, dir: string, config: Configuration?, override: bool, pageCount: nat,
                 data: FntWriter.FontData, present: string -> bool)
    returns (r: Result<Outcome, string>)
    ensures config == null ==> r == Failure(NULL_CONFIG)
    ensures config != null ==> r == Success(Expected(stem, dir, config, override, pageCount, data, present))
  {
    if config == null {
      return Failure(NULL_CONFIG);
    }
    var fileName := BaseName(config.name, stem);
    var pageFiles := PlanPageFiles(dir, fileName, pageCount);
    var fntFile := FntPath(dir, fileName);
    var disposals := 0;
    if !override {
      var found := FindExisting(pageFiles, fntFile, present);
      if found {
        ExpectedRefusal(stem, dir, config, override, pageCount, data, present);
        disposals := disposals + 1;
        return Success(Outcome(FILE_EXISTS, [], disposals));
      }
    }
    ExpectedSuccess(stem, dir, config, override, pageCount, data, present);
    var writes := WritePages(pageFiles);
    var text, charset := FntWriter.ProcessFnt(data, Names(pageFiles[..]), FileName(fntFile), config);
    writes := writes + [FntWrite(fntFile, text, charset)];
    disposals := disposals + 1;
    r := Success(Outcome(SUCCESS, writes, disposals));
  }

  /** The outcome of a run that finds no file in its way. */
  lemma ExpectedSuccess(stem: string, dir: string, config: Configuration, override: bool, pageCount: nat,
                        data: FntWriter.FontData, present: string -> bool)
    requires var base := BaseName(config.name, stem);
      override || !(AnyExists(present, PagePaths(dir, base, pageCount)) || present(FntPath(dir, base)))
    ensures var base := BaseName(config.name, stem); var paths := PagePaths(dir, base, pageCount);
      Expected(stem, dir, config, override, pageCount, data, present)
      == Outcome(SUCCESS,
           PngWrites(paths) + [FntWrite(FntPath(dir, base),
                                        FntWriter.Document(config, data, Names(paths), FileName(FntPath(dir, base))),
                                        FntWriter.WriteCharset(config.charset))],
           1)
  {
  }

  /** The outcome of a run that finds a file in its way. */
  lemma ExpectedRefusal(stem: string, dir: string, config: Configuration, override: bool, pageCount: nat,
                        data: FntWriter.FontData, present: string -> bool)
    requires var base := BaseName(config.name, stem);
      !override && (AnyExists(present, PagePaths(dir, base, pageCount)) || present(FntPath(dir, base)))
    ensures Expected(stem, dir, config, override, pageCount, data, present) == Outcome(FILE_EXISTS, [], 1)
  {
  }

  /** The loop that fills `pageFiles`: the planned path of every page, in page order. */
  method PlanPageFiles(dir: string, fileName: string, pageCount: nat) returns (pageFiles: array<string>)
    ensures fresh(pageFiles)
    ensures pageFiles[..] == PagePaths(dir, fileName, pageCount)
  {
    ghost var paths := PagePaths(dir, fileName, pageCount);
    pageFiles := new string[pageCount];
    var i := 0;
    while i < pageCount
      invariant 0 <= i <= pageCount
      invariant pageFiles[..i] == paths[..i]
    {
      pageFiles[i] := Child(dir, fileName + (if pageCount == 1 then ".png" else "_" + IntToString(i) + ".png"));
      assert pageFiles[..i + 1] == pageFiles[..i] + [pageFiles[i]];
      assert paths[..i + 1] == paths[..i] + [paths[i]];
      i := i + 1;
    }
    assert pageFiles[..] == pageFiles[..i];
  }

  /** The checks made when overriding is off: every page file in turn, then the descriptor; the first
      one that exists stops the run. */
  method FindExisting(pageFiles: array<string>, fntFile: string, present: string -> bool) returns (found: bool)
    ensures found <==> AnyExists(present, pageFiles[..]) || present(fntFile)
  {
    var k := 0;
    while k < pageFiles.Length
      invariant 0 <= k <= pageFiles.Length
      invariant forall m :: 0 <= m < k ==> !present(pageFiles[m])
    {
      if present(pageFiles[k]) {
        assert pageFiles[..][k] == pageFiles[k];
        return true;
      }
      k := k + 1;
    }
    found := present(fntFile);
  }

  /** The loop that writes the pages: page `i` to `pageFiles[i]`, in page order. */
  method WritePages(pageFiles: array<string>) returns (writes: seq<FileWrite>)
    ensures writes == PngWrites(pageFiles[..])
  {
    writes := [];
    var i := 0;
    while i < pageFiles.Length
      invariant 0 <= i <= pageFiles.Length
      invariant writes == PngWrites(pageFiles[..i])
    {
      writes := writes + [PngWrite(pageFiles[i], i)];
      i := i + 1;
    }
    assert pageFiles[..] == pageFiles[..i];
  }

  // ---------------------------------------------------------------- what a run does

  /** A run ends in `FILE_EXISTS` exactly when overriding is off and a planned page or the descriptor
      exists; it ends in `SUCCESS` otherwise. */
  lemma RefusesExactlyWhenAFileExists(stem: string, dir: string, config: Configuration, override: bool,
                                      pageCount: nat, data: FntWriter.FontData, present: string -> bool)
    ensures var o := Expected(stem, dir, config, override, pageCount, data, present);
      var base := BaseName(config.name, stem);
      (o.code == FILE_EXISTS <==>
        !override && (AnyExists(present, PagePaths(dir, base, pageCount)) || present(FntPath(dir, base))))
      && (o.code == SUCCESS <==> o.code != FILE_EXISTS)
  {
  }

  /** A refused run writes nothing; every run disposes of the font exactly once. */
  lemma RefusalWritesNothing(stem: string, dir: string, config: Configuration, override: bool, pageCount: nat,
                             data: FntWriter.FontData, present: string -> bool)
    ensures var o := Expected(stem, dir, config, override, pageCount, data, present);
      (o.code == FILE_EXISTS ==> o.writes == []) && o.disposals == 1
  {
  }

  /** A successful run writes page `i` to the `i`-th planned path, for every page in order, and then the
      descriptor as the last write. */
  lemma SuccessWritesPagesThenDescriptor(stem: string, dir: string, config: Configuration, override: bool,
                                         pageCount: nat, data: FntWriter.FontData, present: string -> bool)
    requires Expected(stem, dir, config, override, pageCount, data, present).code == SUCCESS
    ensures var o := Expected(stem, dir, config, override, pageCount, data, present);
      var base := BaseName(config.name, stem);
      |o.writes| == pageCount + 1
      && (forall i :: 0 <= i < pageCount ==> o.writes[i] == PngWrite(PagePaths(dir, base, pageCount)[i], i))
      && o.writes[pageCount].FntWrite? && o.writes[pageCount].path == FntPath(dir, base)
  {
    var base := BaseName(config.name, stem);
    var paths := PagePaths(dir, base, pageCount);
    ExpectedSuccess(stem, dir, config, override, pageCount, data, present);
    var pngs := PngWrites(paths);
    var fnt := FntWrite(FntPath(dir, base), FntWriter.Document(config, data, Names(paths), FileName(FntPath(dir, base))),
                        FntWriter.WriteCharset(config.charset));
    assert forall i :: 0 <= i < pageCount ==> (pngs + [fnt])[i] == pngs[i];
    assert (pngs + [fnt])[pageCount] == fnt;
  }

  /** With overriding on (the three-argument `process`), nothing stops a run. */
  lemma OverrideAlwaysSucceeds(stem: string, dir: string, config: Configuration, pageCount: nat,
                               data: FntWriter.FontData, present: string -> bool)
    ensures Expected(stem, dir, config, true, pageCount, data, present).code == SUCCESS
  {
  }

  // ---------------------------------------------------------------- the planned names

  /** The file name of a child whose name has no '/' is that name. */
  lemma FileNameOfChild(dir: string, name: string)
    requires '/' !in name
    ensures FileName(Child(dir, name)) == name
  {
    var p := Child(dir, name);
    if dir != "" {
      var i := LastIndexOf(p, '/');
      assert p[|dir|] == '/';
      assert i == |dir|;
      assert p[|dir| + 1..] == name;
    } else {
      assert LastIndexOf(p, '/') == -1;
    }
  }

  /** A page suffix holds no '/'. */
  lemma PageSuffixHasNoSlash(count: nat, i: nat)
    ensures '/' !in PageSuffix(count, i)
  {
    if count != 1 {
      IntToStringChars(i);
      var s := "_" + IntToString(i) + ".png";
      forall k | 0 <= k < |s|
        ensures s[k] != '/'
      {
        if 1 <= k < 1 + |IntToString(i)| {
          assert s[k] == IntToString(i)[k - 1];
        }
      }
    }
  }

  /** For a base name without '/', the descriptor lists page `i` as the base name and its suffix, and
      names its face after the base name. */
  lemma PlannedNames(dir: string, base: string, count: nat)
    requires '/' !in base
    ensures forall i :: 0 <= i < count ==> Names(PagePaths(dir, base, count))[i] == base + PageSuffix(count, i)
    ensures NameWithoutExtension(FileName(FntPath(dir, base))) == base
  {
    forall i | 0 <= i < count
      ensures Names(PagePaths(dir, base, count))[i] == base + PageSuffix(count, i)
    {
      PageSuffixHasNoSlash(count, i);
      FileNameOfChild(dir, base + PageSuffix(count, i));
    }
    assert base + ".fnt" == base + "." + "fnt";
    FileNameOfChild(dir, base + ".fnt");
    NameWithoutExtensionOfFnt(base);
  }

  /** Different names under the same directory are different paths. */
  lemma ChildInjective(dir: string, a: string, b: string)
    ensures Child(dir, a) == Child(dir, b) ==> a == b
  {
    if dir != "" {
      assert a == Child(dir, a)[|dir| + 1..];
      assert b == Child(dir, b)[|dir| + 1..];
    }
  }

  /** Different endings after the same base name make different names. */
  lemma AppendCancel(base: string, s1: string, s2: string)
    ensures base + s1 == base + s2 ==> s1 == s2
  {
    assert s1 == (base + s1)[|base|..];
    assert s2 == (base + s2)[|base|..];
  }

  /** The pages of a font of several pages get different suffixes. */
  lemma PageSuffixInjective(count: nat, i: nat, j: nat)
    requires count != 1
    ensures PageSuffix(count, i) == PageSuffix(count, j) ==> i == j
  {
    var si := IntToString(i);
    var sj := IntToString(j);
    var pi := "_" + si + ".png";
    var pj := "_" + sj + ".png";
    assert si == pi[1..|pi| - 4];
    assert sj == pj[1..|pj| - 4];
    if pi == pj {
      IntToStringInjective(i, j);
    }
  }

  /** A page file is named `.png` and the descriptor `.fnt`, so they never share a path. */
  lemma PageIsNotDescriptor(dir: string, base: string, count: nat, i: nat)
    ensures Child(dir, base + PageSuffix(count, i)) != FntPath(dir, base)
  {
    var a := base + PageSuffix(count, i);
    var b := base + ".fnt";
    ChildInjective(dir, a, b);
    assert a[|a| - 1] == 'g';
    assert b[|b| - 1] == 't';
  }

  /** Every planned file has a path of its own: no two pages share one, and no page shares the
      descriptor's. */
  lemma PlannedPathsDistinct(dir: string, base: string, count: nat)
    ensures forall i, j :: 0 <= i < j < count ==> PagePaths(dir, base, count)[i] != PagePaths(dir, base, count)[j]
    ensures forall i :: 0 <= i < count ==> PagePaths(dir, base, count)[i] != FntPath(dir, base)
  {
    var paths := PagePaths(dir, base, count);
    forall i, j | 0 <= i < j < count
      ensures paths[i] != paths[j]
    {
      ChildInjective(dir, base + PageSuffix(count, i), base + PageSuffix(count, j));
      AppendCancel(base, PageSuffix(count, i), PageSuffix(count, j));
      PageSuffixInjective(count, i, j);
    }
    forall i | 0 <= i < count
      ensures paths[i] != FntPath(dir, base)
    {
      PageIsNotDescriptor(dir, base, count, i);
    }
  }
}
