/** The output file of a block (src/writer.rs): its name is the prefix,
    the block's name and the suffix joined by `_`, leaving out an empty
    prefix or suffix, with the format's extension; a failed write becomes a
    `FileError` naming the block. The file system is a function parameter. */
module Writer {
  import opened Common
  import opened Errors
  import Output

  /** The output options `write_output` reads. */
  datatype OutputArgs = OutputArgs(out: string, prefix: string, suffix: string, format: Output.OutputFormat)

  /** `std::fs::write` of the contents to a file name in a directory:
      nothing on success, the error's text on failure. */
  type FileWriter = (string, string, string) -> Option<string>

  function Extension(format: Output.OutputFormat): string
  {
    match format
    case Hex => "hex"
    case Mot => "mot"
  }

  /** `join`: the parts with the separator between each two. */
  function Join(parts: seq<string>, sep: string): string
    decreases |parts|
  {
    if parts == [] then []
    else if |parts| == 1 then parts[0]
    else parts[0] + sep + Join(parts[1..], sep)
  }

  /** The parts of the name: the prefix if not empty, the block's name,
      the suffix if not empty. */
  method NameParts(args: OutputArgs, blockName: string) returns (parts: seq<string>)
    ensures parts == (if args.prefix != [] then [args.prefix] else []) + [blockName]
                     + (if args.suffix != [] then [args.suffix] else [])
  {
    parts := [];
    if args.prefix != [] {
      parts := parts + [args.prefix];
    }
    parts := parts + [blockName];
    if args.suffix != [] {
      parts := parts + [args.suffix];
    }
  }

  /** The file name `write_output` writes to. */
  function FileName(args: OutputArgs, blockName: string): string
  {
    Join((if args.prefix != [] then [args.prefix] else []) + [blockName]
         + (if args.suffix != [] then [args.suffix] else []), "_")
    + "." + Extension(args.format)
  }

  /** `out_filename` in `write_output`. */
  method OutFilename(args: OutputArgs, blockName: string) returns (name: string)
    ensures name == FileName(args, blockName)
  {
    var parts := NameParts(args, blockName);
    var ext := Extension(args.format);
    name := Join(parts, "_") + "." + ext;
  }

  /** The name spelled out: an empty prefix or suffix brings no `_` with
      it, so the name is `PRE_<block>_SUF.hex` with both, `<block>.mot`
      with neither, and the extension is `hex` for Intel HEX and `mot` for
      S-records. */
  lemma FileNameShapes(args: OutputArgs, blockName: string)
    ensures var ext := if args.format.Hex? then "hex" else "mot";
      FileName(args, blockName)
        == (if args.prefix != [] then args.prefix + "_" else []) + blockName
           + (if args.suffix != [] then "_" + args.suffix else []) + "." + ext
  {
    var p := args.prefix;
    var s := args.suffix;
    var b := blockName;
    var parts := (if p != [] then [p] else []) + [b] + (if s != [] then [s] else []);
    var stem := (if p != [] then p + "_" else []) + b + (if s != [] then "_" + s else []);
    assert FileName(args, b) == Join(parts, "_") + "." + Extension(args.format);
    if p != [] && s != [] {
      assert parts == [p, b, s];
      assert parts[1..] == [b, s];
      assert parts[1..][1..] == [s];
      assert Join(parts[1..], "_") == b + "_" + s;
      assert Join(parts, "_") == p + "_" + Join(parts[1..], "_");
      assert stem == p + "_" + (b + "_" + s);
    } else if p != [] {
      assert parts == [p, b];
      assert parts[1..] == [b];
      assert Join(parts, "_") == p + "_" + b;
      assert stem == p + "_" + b;
    } else if s != [] {
      assert parts == [b, s];
      assert parts[1..] == [s];
      assert Join(parts, "_") == b + "_" + s;
      assert stem == b + "_" + s;
    } else {
      assert parts == [b];
      assert stem == b;
    }
  }

  /** The name starts with the first character of the prefix, or of the
      block's name when there is no prefix, and the part before the dot
      ends with the last character of the suffix, or of the block's name
      when there is no suffix: the joining adds no leading or trailing `_`. */
  lemma FileNameEnds(args: OutputArgs, blockName: string)
    requires blockName != []
    ensures var name := FileName(args, blockName);
      var stem := |name| - 1 - |Extension(args.format)|;
      && 1 <= stem < |name| && name[stem] == '.'
      && name[0] == (if args.prefix != [] then args.prefix[0] else blockName[0])
      && name[stem - 1] == (if args.suffix != [] then args.suffix[|args.suffix| - 1] else blockName[|blockName| - 1])
  {
    FileNameShapes(args, blockName);
  }

  /** `write_output`: the name's composition, then the write; a failure
      becomes a `FileError` naming the block and giving the cause. */
  method WriteOutput(args: OutputArgs, blockName: string, contents: string, write: FileWriter)
    returns (r: Result<(), NvmError>)
    ensures write(args.out, FileName(args, blockName), contents).None? <==> r.Ok?
    ensures r.Err? ==> r.error == FileError("failed to write block " + blockName + ": "
                                             + write(args.out, FileName(args, blockName), contents).value)
  {
    var name := OutFilename(args, blockName);
    var failure := write(args.out, name, contents);
    if failure.Some? {
      return Err(FileError("failed to write block " + blockName + ": " + failure.value));
    }
    r := Ok(());
  }
}
