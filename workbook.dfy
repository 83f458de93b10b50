/** The spreadsheet a data sheet is read from, as the three data-sheet
    readers (src/variant/mod.rs, src/variants.rs, src/variants/mod.rs) see
    it once loaded: a column of names, a default column, an optional debug
    column and an optional variant column, all indexed by row, plus the
    other worksheets by name. Loading the workbook is not modelled; a
    `DataSheet` value stands for the loaded result. */
module Workbook {
  import opened Common
  import opened Primitives

  /** A cell: an integer, a finite float, text, a boolean, another kind of
      value (a date, a duration, an error), or nothing. */
  datatype Cell = Int(n: i64) | Float(x: real) | Text(s: string) | Bool(b: bool) | Other | Empty

  /** A worksheet as a list of rows. */
  type Sheet = seq<seq<Cell>>

  datatype DataSheet = DataSheet(
    names: seq<string>,
    defaults: seq<Cell>,
    debugs: Option<seq<Cell>>,
    variants: Option<seq<Cell>>,
    sheets: map<string, Sheet>)

  // ---------------------------------------------------------------------
  // Text helpers

  /** The characters with the Unicode White_Space property, which `trim`
      removes. */
  predicate IsWhitespace(c: char)
  {
    ('\U{0009}' <= c <= '\U{000D}') || c == '\U{0020}' || c == '\U{0085}' || c == '\U{00A0}'
    || c == '\U{1680}' || ('\U{2000}' <= c <= '\U{200A}') || c == '\U{2028}' || c == '\U{2029}'
    || c == '\U{202F}' || c == '\U{205F}' || c == '\U{3000}'
  }

  predicate AllWhitespace(s: string) { forall i :: 0 <= i < |s| ==> IsWhitespace(s[i]) }

  /** `trim_start`: s without its leading whitespace. */
  function TrimStart(s: string): (r: string)
    ensures |r| <= |s| && r == s[|s| - |r|..]
    ensures r == [] <==> AllWhitespace(s)
    ensures r != [] ==> !IsWhitespace(r[0])
    ensures AllWhitespace(s[..|s| - |r|])
  {
    if s == [] then []
    else if IsWhitespace(s[0]) then
      var r := TrimStart(s[1..]);
      assert s[1..][..|s| - 1 - |r|] == s[1..|s| - |r|];
      r
    else s
  }

  /** `trim_end`: s without its trailing whitespace. */
  function TrimEnd(s: string): (r: string)
    ensures |r| <= |s| && r == s[..|r|]
    ensures r == [] <==> AllWhitespace(s)
    ensures r != [] ==> !IsWhitespace(r[|r| - 1])
    ensures AllWhitespace(s[|r|..])
  {
    if s == [] then []
    else if IsWhitespace(s[|s| - 1]) then
      var r := TrimEnd(s[..|s| - 1]);
      assert s[..|s| - 1][|r|..] == s[|r|..|s| - 1];
      r
    else s
  }

  /** `trim`: s without leading and trailing whitespace; it is empty
      exactly when s is all whitespace. */
  function Trim(s: string): (r: string)
    ensures r == [] <==> AllWhitespace(s)
    ensures r != [] ==> !IsWhitespace(r[0]) && !IsWhitespace(r[|r| - 1])
    ensures |r| <= |s|
  {
    var t := TrimStart(s);
    var r := TrimEnd(t);
    assert r != [] ==> r[0] == t[0];
    r
  }

  /** ASCII lower-casing of one character; every other character is kept. */
  function AsciiLower(c: char): char
  {
    if 'A' <= c <= 'Z' then (c as int + 32) as char else c
  }

  /** `eq_ignore_ascii_case` */
  predicate EqIgnoreAsciiCase(a: string, b: string)
  {
    |a| == |b| && forall i :: 0 <= i < |a| ==> AsciiLower(a[i]) == AsciiLower(b[i])
  }

  // ---------------------------------------------------------------------
  // Cells

  /** `cell_is_empty`: an empty cell, or text that is only whitespace. */
  function CellIsEmpty(c: Cell): (r: bool)
    ensures r <==> c.Empty? || (c.Text? && AllWhitespace(c.s))
  {
    match c
    case Empty => true
    case Text(s) => Trim(s) == []
    case _ => false
  }

  /** `cell_eq_ascii`: text whose trimmed content equals the target up to
      ASCII case. */
  function CellEqAscii(c: Cell, target: string): (r: bool)
    ensures r <==> c.Text? && EqIgnoreAsciiCase(Trim(c.s), target)
    ensures r ==> c.Text? && |Trim(c.s)| == |target|
  {
    match c
    case Text(s) => EqIgnoreAsciiCase(Trim(s), target)
    case _ => false
  }

  /** Matching a header ignores ASCII case: a target that equals another up
      to case matches the same cells, and a cell never matches a target of
      a different trimmed length. */
  lemma CellEqAsciiRespectsCase(c: Cell, t: string, u: string)
    requires EqIgnoreAsciiCase(t, u)
    ensures CellEqAscii(c, t) <==> CellEqAscii(c, u)
  {
    if c.Text? {
      var s := Trim(c.s);
      if EqIgnoreAsciiCase(s, t) {
        assert forall i :: 0 <= i < |s| ==> AsciiLower(s[i]) == AsciiLower(u[i]) by {
          forall i | 0 <= i < |s| ensures AsciiLower(s[i]) == AsciiLower(u[i]) {
            assert AsciiLower(s[i]) == AsciiLower(t[i]);
          }
        }
      }
      if EqIgnoreAsciiCase(s, u) {
        assert forall i :: 0 <= i < |s| ==> AsciiLower(s[i]) == AsciiLower(t[i]) by {
          forall i | 0 <= i < |s| ensures AsciiLower(s[i]) == AsciiLower(t[i]) {
            assert AsciiLower(s[i]) == AsciiLower(u[i]);
          }
        }
      }
    }
  }

  // ---------------------------------------------------------------------
  // Lookup and priority

  /** `names.iter().position(|n| n == name)`: the first row with that name. */
  function FirstIndex(names: seq<string>, name: string): (r: Option<nat>)
    ensures r.Some? ==> r.value < |names| && names[r.value] == name
    ensures r.Some? ==> forall j :: 0 <= j < r.value ==> names[j] != name
    ensures r.None? <==> name !in names
  {
    if names == [] then None
    else if names[0] == name then Some(0)
    else
      match FirstIndex(names[1..], name)
      case None => None
      case Some(i) => Some(i + 1)
  }

  /** `column.get(index)` on a column that may be absent. */
  function ColumnAt(column: Option<seq<Cell>>, i: nat): Option<Cell>
  {
    if column.Some? && i < |column.value| then Some(column.value[i]) else None
  }

  /** A candidate that is present and not skipped. */
  predicate Usable(o: Option<Cell>, skip: Cell -> bool) { o.Some? && !skip(o.value) }

  /** The position of the first usable candidate, or the length of the list
      when there is none. */
  function FirstUsable(candidates: seq<Option<Cell>>, skip: Cell -> bool): (k: nat)
    ensures k <= |candidates|
    ensures k < |candidates| ==> Usable(candidates[k], skip)
    ensures forall j :: 0 <= j < k ==> !Usable(candidates[j], skip)
  {
    if candidates == [] then 0
    else if Usable(candidates[0], skip) then 0
    else 1 + FirstUsable(candidates[1..], skip)
  }

  /** The value a name selects: in the first row with that name, the debug
      cell, else the variant cell, else the default cell, skipping columns
      that are absent or too short and cells that `skip` rejects. */
  function Select(ds: DataSheet, name: string, skip: Cell -> bool): (r: Option<Cell>)
    ensures name !in ds.names ==> r.None?
    ensures name in ds.names ==>
      var i := FirstIndex(ds.names, name).value;
      var debug := ColumnAt(ds.debugs, i);
      var variant := ColumnAt(ds.variants, i);
      var default := ColumnAt(Some(ds.defaults), i);
      && (Usable(debug, skip) ==> r == debug)
      && (!Usable(debug, skip) && Usable(variant, skip) ==> r == variant)
      && (!Usable(debug, skip) && !Usable(variant, skip) ==> r == (if Usable(default, skip) then default else None))
  {
    match FirstIndex(ds.names, name)
    case None => None
    case Some(i) =>
      var cs := [ColumnAt(ds.debugs, i), ColumnAt(ds.variants, i), ColumnAt(Some(ds.defaults), i)];
      var k := FirstUsable(cs, skip);
      assert Usable(cs[0], skip) ==> k == 0;
      assert !Usable(cs[0], skip) && Usable(cs[1], skip) ==> k == 1;
      assert !Usable(cs[0], skip) && !Usable(cs[1], skip) && Usable(cs[2], skip) ==> k == 2;
      if k < |cs| then cs[k] else None
  }
}
