/** The `name@file` block argument of the layout command
    (src/layout/args.rs). */
module BlockArgs {
  import opened Common
  import opened LayoutErrors

  datatype BlockNames = BlockNames(name: string, file: string)

  /** The first position of c in s. */
  function IndexOf(s: string, c: char): (i: nat)
    requires c in s
    ensures i < |s| && s[i] == c && c !in s[..i]
  {
    if s[0] == c then 0
    else
      var j := IndexOf(s[1..], c);
      assert s[..j + 1] == [s[0]] + s[1..][..j];
      j + 1
  }

  /** The pieces joined back with the separator between them. */
  function Join(parts: seq<string>, sep: char): string
    requires |parts| >= 1
  {
    if |parts| == 1 then parts[0] else parts[0] + [sep] + Join(parts[1..], sep)
  }

  /** `str::split(sep)`: the pieces between the separators, in order; there
      is one more piece than there are separators, and joining the pieces
      gives the text back. */
  function Split(s: string, sep: char): (parts: seq<string>)
    ensures |parts| == Count(s, sep) + 1
    ensures forall i :: 0 <= i < |parts| ==> sep !in parts[i]
    ensures Join(parts, sep) == s
    decreases |s|
  {
    if sep !in s then
      CountZero(s, sep);
      [s]
    else
      var i := IndexOf(s, sep);
      var rest := Split(s[i + 1..], sep);
      assert s == s[..i] + [sep] + s[i + 1..];
      CountAppend(s[..i] + [sep], s[i + 1..], sep);
      CountAppend(s[..i], [sep], sep);
      CountZero(s[..i], sep);
      assert Count([sep], sep) == 1 by { assert [sep][1..] == []; }
      var parts := [s[..i]] + rest;
      assert parts[1..] == rest;
      parts
  }

  /** A separator placed after a prefix free of it is the first one. */
  lemma IndexOfAfterPrefix(p: string, sep: char, rest: string)
    requires sep !in p
    ensures IndexOf(p + [sep] + rest, sep) == |p|
  {
    var s := p + [sep] + rest;
    var i := IndexOf(s, sep);
    assert s[..|p|] == p;
    assert s[|p|] == sep;
  }

  /** Splitting pieces that hold no separator, once joined, gives the
      pieces back. */
  lemma {:induction false} SplitJoin(parts: seq<string>, sep: char)
    requires |parts| >= 1
    requires forall i :: 0 <= i < |parts| ==> sep !in parts[i]
    ensures Split(Join(parts, sep), sep) == parts
  {
    if |parts| > 1 {
      var rest := Join(parts[1..], sep);
      assert Join(parts, sep) == parts[0] + [sep] + rest;
      SplitCons(parts[0], sep, rest);
      SplitJoin(parts[1..], sep);
      assert parts == [parts[0]] + parts[1..];
    }
  }

  /** Text free of the separator, then the separator, splits into that
      text followed by the pieces of what comes after. */
  lemma SplitCons(p: string, sep: char, rest: string)
    requires sep !in p
    ensures Split(p + [sep] + rest, sep) == [p] + Split(rest, sep)
  {
    var s := p + [sep] + rest;
    assert s[|p|] == sep;
    IndexOfAfterPrefix(p, sep, rest);
    assert s[..|p|] == p;
    assert s[|p| + 1..] == rest;
  }

  /** `parse_block_arg`: the text before the `@` names the block, the text
      after it the layout file; either may be empty. Anything but exactly
      one `@` is refused. */
  function ParseBlockArg(block: string): (r: Result<BlockNames, LayoutError>)
    ensures r.Ok? <==> Count(block, '@') == 1
    ensures r.Ok? ==> block == r.value.name + "@" + r.value.file
    ensures r.Ok? ==> '@' !in r.value.name && '@' !in r.value.file
    ensures r.Err? ==> r.error == InvalidBlockArgument("Failed to unpack block " + block)
  {
    var parts := Split(block, '@');
    if |parts| != 2 then Err(InvalidBlockArgument("Failed to unpack block " + block))
    else
      assert parts[1..] == [parts[1]];
      Ok(BlockNames(parts[0], parts[1]))
  }

  /** A block name and a file name free of `@`, written as `name@file`,
      parse back to themselves. */
  lemma ParseBlockArgRoundTrip(name: string, file: string)
    requires '@' !in name && '@' !in file
    ensures ParseBlockArg(name + "@" + file) == Ok(BlockNames(name, file))
  {
    var parts := [name, file];
    assert parts[1..] == [file];
    assert Join(parts, '@') == name + "@" + file;
    SplitJoin(parts, '@');
  }
}
