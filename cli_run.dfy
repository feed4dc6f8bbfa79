/** `call()` of the picocli front end: the configuration built from the options goes to the packer, and
    the packer's result code comes back unchanged. */
module CliRun {
  import opened Wrappers
  import opened JavaText
  import opened Utils
  import opened Config
  import opened Cli
  import FntWriter
  import Packer

  /** An accepted format selects the XML dialect of the descriptor exactly when it is "xml" up to case. */
  lemma FormatSelectsDialect(value: string)
    requires ParseFormat(value).Success?
    ensures FntWriter.IsXml(ParseFormat(value).value) <==> EqualsIgnoreCase(value, "xml")
  {
    FormatAccepted(value);
  }

  /** `call()`: the configuration built from the options, handed to the packer with the `override`
      flag; the packer's result code is returned unchanged whether or not it is success. The rasterizer's
      output and the file system's answers are parameters, as for the packer. */
  method Call(opts: Options, stem: string, dir: string, pageCount: nat, data: FntWriter.FontData,
              present: string -> bool)
    returns (config: Configuration, run: Packer.Outcome, code: int)
    ensures fresh(config) && Configured(config, opts)
    ensures run == Packer.Expected(stem, dir, config, opts.override, pageCount, data, present)
    ensures code == run.code
  {
    config := Configure(opts);
    var result := Packer.Process(stem, dir, config, opts.override, pageCount, data, present);
    run := result.value;
    code := run.code;
  }

  /** The base name the packer gives the output files is the `name` option when it is non-empty and
      the font file's name without its extension otherwise. */
  lemma ConfiguredBaseName(config: Configuration, opts: Options, stem: string)
    requires Configured(config, opts)
    ensures Packer.BaseName(config.name, stem) == if StringNotEmpty(opts.name) then opts.name.value else stem
  {
  }

  /** A page size sets the width and the height together and the paddings land on top, left, bottom and
      right in that order; an absent tuple leaves its fields at their defaults. */
  lemma ConfiguredTuples(config: Configuration, opts: Options)
    requires Configured(config, opts)
    ensures opts.pageSize.Some? ==> config.pageWidth == opts.pageSize.value.arg0
                                    && config.pageHeight == opts.pageSize.value.arg1
    ensures opts.pageSize.None? ==> config.pageWidth == -1 && config.pageHeight == -1
    ensures opts.paddings.Some? ==> config.padTop == opts.paddings.value.arg0
                                    && config.padLeft == opts.paddings.value.arg1
                                    && config.padBottom == opts.paddings.value.arg2
                                    && config.padRight == opts.paddings.value.arg3
    ensures opts.paddings.None? ==> config.padTop == 0 && config.padLeft == 0 && config.padBottom == 0
                                    && config.padRight == 0
  {
  }

  /** With `--characters-files`, the configured characters hold no duplicate, every character of the
      files is among them, and so is every character the configuration had before. */
  lemma ConfiguredCharactersFromFiles(config: Configuration, opts: Options)
    requires Configured(config, opts) && opts.charactersFiles.Some?
    ensures NoDuplicates(config.characters)
    ensures forall c :: c in opts.charactersFiles.value ==> c in config.characters
    ensures StringNotEmpty(opts.characters) ==> forall c :: c in opts.characters.value ==> c in config.characters
    ensures !StringNotEmpty(opts.characters) ==> forall c :: c in DEFAULT_CHARS ==> c in config.characters
  {
  }
}
