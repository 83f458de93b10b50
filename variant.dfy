/** Value retrieval from a loaded data sheet (src/variant/mod.rs): a single
    number, a one-dimensional array or string, or a two-dimensional array,
    looked up by name with debug over variant over default priority. A
    sheet reference `#<sheet>` in the selected cell is followed to another
    worksheet, whose rows are walked until the first empty cell. */
module Variant {
  import opened Common
  import opened Primitives
  import opened Schema
  import opened Workbook

  /** The fixed messages of `VariantError::RetrievalError`. */
  datatype RetrievalFailure =
    | IndexNotFound          // "index not found in data sheet"
    | DataNotFound           // "data not found in any variant column"
    | NonNumericSingle       // "Found non-numeric single value"
    | StringExpectedFor1D    // "Expected string value for 1D array or string"
    | SheetNotFound(sheet: string)
    | Unsupported1D          // "Unsupported data type in 1D array"
    | StringExpectedFor2D    // "Expected string value for 2D array"
    | MissingSheetPrefix(text: string)
    | NoHeaders              // "No headers found in 2D array"
    | ZeroWidth              // "Detected zero width 2D array"
    | Unsupported2D          // "Unsupported data type in 2D array"

  datatype VariantError =
    | FileError(message: string)
    | ColumnNotFound(column: string)
    | RetrievalError(failure: RetrievalFailure)
    | MiscError(message: string)
    | WhileRetrieving(name: string, source: VariantError)

  /** `retrieve_cell`: the first non-empty cell among debug, variant and
      default in the first row with that name. */
  function RetrieveCell(ds: DataSheet, name: string): (r: Result<Cell, VariantError>)
    ensures r.Ok? <==> Select(ds, name, CellIsEmpty).Some?
    ensures r.Ok? ==> r.value == Select(ds, name, CellIsEmpty).value && !CellIsEmpty(r.value)
    ensures r.Err? && name !in ds.names ==> r.error == RetrievalError(IndexNotFound)
    ensures r.Err? && name in ds.names ==> r.error == RetrievalError(DataNotFound)
  {
    match Select(ds, name, CellIsEmpty)
    case Some(c) => Ok(c)
    case None =>
      if name in ds.names then Err(RetrievalError(DataNotFound)) else Err(RetrievalError(IndexNotFound))
  }

  /** Wrap a failure in `WhileRetrieving` with the requested name. */
  function Wrap<T>(name: string, r: Result<T, VariantError>): (w: Result<T, VariantError>)
    ensures w.Ok? <==> r.Ok?
    ensures w.Ok? ==> w.value == r.value
    ensures w.Err? ==> w.error == WhileRetrieving(name, r.error)
  {
    match r
    case Ok(v) => Ok(v)
    case Err(e) => Err(WhileRetrieving(name, e))
  }

  /** `retrieve_single_value`: the selected cell as a number. */
  function RetrieveSingleValue(ds: DataSheet, name: string): (r: Result<DataValue, VariantError>)
    ensures r.Ok? <==> RetrieveCell(ds, name).Ok? && (RetrieveCell(ds, name).value.Int? || RetrieveCell(ds, name).value.Float?)
    ensures r.Ok? && RetrieveCell(ds, name).value.Int? ==> r.value == Int64(RetrieveCell(ds, name).value.n)
    ensures r.Ok? && RetrieveCell(ds, name).value.Float? ==> r.value == Float64(RetrieveCell(ds, name).value.x)
    ensures r.Err? ==> r.error.WhileRetrieving? && r.error.name == name
  {
    Wrap(name,
      match RetrieveCell(ds, name)
      case Err(e) => Err(e)
      case Ok(Int(n)) => Ok(Int64(n))
      case Ok(Float(x)) => Ok(Float64(x))
      case Ok(_) => Err(RetrievalError(NonNumericSingle)))
  }

  // ---------------------------------------------------------------------
  // One-dimensional arrays and strings

  /** The value of a cell in a 1D column. */
  function Convert1D(c: Cell): Result<DataValue, VariantError>
  {
    match c
    case Int(n) => Ok(Int64(n))
    case Float(x) => Ok(Float64(x))
    case Text(s) => Ok(Str(s))
    case _ => Err(RetrievalError(Unsupported1D))
  }

  /** A row that ends a column walk: no first cell, or an empty one. */
  predicate EndsColumn(row: seq<Cell>) { |row| == 0 || CellIsEmpty(row[0]) }

  /** The first-column values of the rows up to the first row that ends
      the column, or the failure of the first value that does not
      convert. */
  function FirstColumn(rows: seq<seq<Cell>>): (r: Result<seq<DataValue>, VariantError>)
    ensures r.Ok? ==> |r.value| <= |rows|
    ensures r.Ok? ==> forall j :: 0 <= j < |r.value| ==> !EndsColumn(rows[j]) && Convert1D(rows[j][0]) == Ok(r.value[j])
    ensures r.Ok? && |r.value| < |rows| ==> EndsColumn(rows[|r.value|])
    ensures r.Err? ==> r.error == RetrievalError(Unsupported1D)
    ensures r.Err? ==> exists k :: (0 <= k < |rows| && !EndsColumn(rows[k]) && Convert1D(rows[k][0]).Err?
      && (forall j :: 0 <= j < k ==> !EndsColumn(rows[j]) && Convert1D(rows[j][0]).Ok?))
  {
    if rows == [] || EndsColumn(rows[0]) then Ok([])
    else
      match Convert1D(rows[0][0])
      case Err(e) => Err(e)
      case Ok(v) =>
        match FirstColumn(rows[1..])
        case Err(e) =>
          ghost var k :| 0 <= k < |rows[1..]| && !EndsColumn(rows[1..][k]) && Convert1D(rows[1..][k][0]).Err?
            && forall j :: 0 <= j < k ==> !EndsColumn(rows[1..][j]) && Convert1D(rows[1..][j][0]).Ok?;
          assert rows[k + 1] == rows[1..][k];
          assert forall j :: 0 <= j < k + 1 ==> !EndsColumn(rows[j]) && Convert1D(rows[j][0]).Ok? by {
            forall j | 0 <= j < k + 1 ensures !EndsColumn(rows[j]) && Convert1D(rows[j][0]).Ok? {
              if j > 0 { assert rows[j] == rows[1..][j - 1]; }
            }
          }
          Err(e)
        case Ok(vs) =>
          assert forall j :: 1 <= j < 1 + |vs| ==> rows[j] == rows[1..][j - 1];
          Ok([v] + vs)
  }

  /** `strip_prefix('#')` */
  function SheetReference(s: string): (r: Option<string>)
    ensures r.Some? <==> |s| > 0 && s[0] == '#'
    ensures r.Some? ==> s == "#" + r.value
  {
    if |s| > 0 && s[0] == '#' then Some(s[1..]) else None
  }

  /** The rows below a sheet's header row. */
  function Body(rows: Sheet): (b: Sheet)
    ensures |rows| > 0 ==> |b| == |rows| - 1 && forall j :: 1 <= j < |rows| ==> b[j - 1] == rows[j]
    ensures |rows| == 0 ==> b == []
  {
    if |rows| == 0 then [] else rows[1..]
  }

  /** `out` followed by the values of a walk that may fail. */
  function Prefixed<T>(out: seq<T>, r: Result<seq<T>, VariantError>): (p: Result<seq<T>, VariantError>)
    ensures out == [] ==> p == r
  {
    assert r.Ok? ==> [] + r.value == r.value;
    match r
    case Ok(vs) => Ok(out + vs)
    case Err(e) => Err(e)
  }

  /** The 1D result for a selected text: the text itself, or the first
      column of the sheet it refers to. */
  function Text1D(ds: DataSheet, s: string): (r: Result<ValueSource, VariantError>)
    ensures SheetReference(s).None? ==> r == Ok(Single(Str(s)))
    ensures r.Ok? && SheetReference(s).Some? ==> SheetReference(s).value in ds.sheets && r.value.Array?
    ensures SheetReference(s).Some? && SheetReference(s).value !in ds.sheets
      ==> r == Err(RetrievalError(SheetNotFound(SheetReference(s).value)))
  {
    match SheetReference(s)
    case None => Ok(Single(Str(s)))
    case Some(sheet) =>
      if sheet !in ds.sheets then Err(RetrievalError(SheetNotFound(sheet)))
      else
        match FirstColumn(Body(ds.sheets[sheet]))
        case Err(e) => Err(e)
        case Ok(vs) => Ok(Array(vs))
  }

  /** What `retrieve_1d_array_or_string` returns. */
  function Retrieve1D(ds: DataSheet, name: string): (r: Result<ValueSource, VariantError>)
    ensures r.Err? ==> r.error.WhileRetrieving? && r.error.name == name
    ensures RetrieveCell(ds, name).Err? ==> r == Err(WhileRetrieving(name, RetrieveCell(ds, name).error))
    ensures RetrieveCell(ds, name).Ok? && !RetrieveCell(ds, name).value.Text?
      ==> r == Err(WhileRetrieving(name, RetrievalError(StringExpectedFor1D)))
    ensures RetrieveCell(ds, name).Ok? && RetrieveCell(ds, name).value.Text?
      ==> r == Wrap(name, Text1D(ds, RetrieveCell(ds, name).value.s))
  {
    Wrap(name,
      match RetrieveCell(ds, name)
      case Err(e) => Err(e)
      case Ok(Text(s)) => Text1D(ds, s)
      case Ok(_) => Err(RetrievalError(StringExpectedFor1D)))
  }

  /** The row walk of `retrieve_1d_array_or_string`: every row below the
      header in turn, until one whose first cell is missing or empty. */
  method WalkFirstColumn(rows: Sheet) returns (r: Result<seq<DataValue>, VariantError>)
    ensures r == FirstColumn(Body(rows))
  {
    if |rows| == 0 {
      return Ok([]);
    }
    var out: seq<DataValue> := [];
    var i := 1;
    while i < |rows|
      invariant 1 <= i <= |rows|
      invariant FirstColumn(rows[1..]) == Prefixed(out, FirstColumn(rows[i..]))
      decreases |rows| - i
    {
      var row := rows[i];
      if EndsColumn(row) {
        break;
      }
      var v := Convert1D(row[0]);
      if v.Err? {
        return Err(v.error);
      }
      assert rows[i..][1..] == rows[i + 1..];
      WalkStep(rows[i..], out, v.value);
      out := out + [v.value];
      i := i + 1;
    }
    assert rows[i..] == [] || EndsColumn(rows[i..][0]);
    assert out + [] == out;
    return Ok(out);
  }

  /** One row of the walk: a row that does not end the column and whose
      value converts adds that value to what was collected. */
  lemma WalkStep(rest: seq<seq<Cell>>, out: seq<DataValue>, v: DataValue)
    requires rest != [] && !EndsColumn(rest[0]) && Convert1D(rest[0][0]) == Ok(v)
    ensures Prefixed(out, FirstColumn(rest)) == Prefixed(out + [v], FirstColumn(rest[1..]))
  {
    match FirstColumn(rest[1..]) {
      case Err(_) =>
      case Ok(vs) => assert out + ([v] + vs) == (out + [v]) + vs;
    }
  }

  /** `retrieve_1d_array_or_string` */
  method Retrieve1DArrayOrString(ds: DataSheet, name: string) returns (r: Result<ValueSource, VariantError>)
    ensures r == Retrieve1D(ds, name)
  {
    var cell := RetrieveCell(ds, name);
    if cell.Err? {
      return Wrap(name, Err(cell.error));
    }
    if !cell.value.Text? {
      return Wrap(name, Err(RetrievalError(StringExpectedFor1D)));
    }
    var s := cell.value.s;
    var reference := SheetReference(s);
    if reference.None? {
      return Ok(Single(Str(s)));
    }
    if reference.value !in ds.sheets {
      return Wrap(name, Err(RetrievalError(SheetNotFound(reference.value))));
    }
    var column := WalkFirstColumn(ds.sheets[reference.value]);
    if column.Err? {
      return Wrap(name, Err(column.error));
    }
    return Ok(Array(column.value));
  }

  /** A sheet reference returns the sheet's first column below the header:
      value j comes from row j + 1, and the walk stops before the first
      row whose first cell is missing or empty. */
  lemma Text1DFollowsReference(ds: DataSheet, s: string)
    requires Text1D(ds, s).Ok? && SheetReference(s).Some?
    ensures var rows := ds.sheets[SheetReference(s).value];
      var vs := Text1D(ds, s).value.values;
      && |vs| <= |Body(rows)|
      && (forall j :: 1 <= j <= |vs| ==> !EndsColumn(rows[j]) && Convert1D(rows[j][0]) == Ok(vs[j - 1]))
      && (|vs| + 1 < |rows| ==> EndsColumn(rows[|vs| + 1]))
  {
    var rows := ds.sheets[SheetReference(s).value];
    var vs := Text1D(ds, s).value.values;
    assert FirstColumn(Body(rows)) == Ok(vs);
    forall j | 1 <= j <= |vs|
      ensures !EndsColumn(rows[j]) && Convert1D(rows[j][0]) == Ok(vs[j - 1])
    {
      assert Body(rows)[j - 1] == rows[j];
    }
    if |vs| + 1 < |rows| {
      assert Body(rows)[|vs|] == rows[|vs| + 1];
    }
  }

  // ---------------------------------------------------------------------
  // Two-dimensional arrays

  /** The value of a cell in a 2D table: numbers only. */
  function Convert2D(c: Cell): (r: Result<DataValue, VariantError>)
    ensures r.Ok? ==> r.value.Int64? || r.value.Float64?
  {
    match c
    case Int(n) => Ok(Int64(n))
    case Float(x) => Ok(Float64(x))
    case _ => Err(RetrievalError(Unsupported2D))
  }

  /** The number of leading non-empty header cells. */
  function LeadingNonEmpty(header: seq<Cell>): (w: nat)
    ensures w <= |header|
    ensures forall j :: 0 <= j < w ==> !CellIsEmpty(header[j])
    ensures w < |header| ==> CellIsEmpty(header[w])
  {
    if header == [] || CellIsEmpty(header[0]) then 0
    else 1 + LeadingNonEmpty(header[1..])
  }

  /** How reading one row of a 2D table ends. */
  datatype RowOutcome = Values(values: seq<DataValue>) | Stop | Fail(error: VariantError)

  /** The first `width` cells of a row: `Stop` at a missing or empty
      cell, `Fail` at a cell that is not a number. */
  function ReadRow(row: seq<Cell>, width: nat): (o: RowOutcome)
    ensures o.Values? ==> |o.values| == width && width <= |row|
    ensures o.Values? ==> forall j :: 0 <= j < width ==> !CellIsEmpty(row[j]) && Convert2D(row[j]) == Ok(o.values[j])
    ensures o.Fail? ==> o.error == RetrievalError(Unsupported2D)
  {
    if width == 0 then Values([])
    else if row == [] || CellIsEmpty(row[0]) then Stop
    else
      match Convert2D(row[0])
      case Err(e) => Fail(e)
      case Ok(v) =>
        match ReadRow(row[1..], width - 1)
        case Values(vs) =>
          assert forall j :: 1 <= j < width ==> row[j] == row[1..][j - 1] && ([v] + vs)[j] == vs[j - 1];
          Values([v] + vs)
        case other => other
  }

  /** `vals` followed by what reading the rest of a row gives. */
  function RowPrefixed(vals: seq<DataValue>, o: RowOutcome): (p: RowOutcome)
    ensures vals == [] ==> p == o
  {
    assert o.Values? ==> [] + o.values == o.values;
    match o
    case Values(vs) => Values(vals + vs)
    case other => other
  }

  /** The rows up to the first one that stops, each of exactly `width`
      numbers, or the first failure. */
  function ReadRows(rows: seq<seq<Cell>>, width: nat): (r: Result<seq<seq<DataValue>>, VariantError>)
    requires width >= 1
    ensures r.Ok? ==> |r.value| <= |rows|
    ensures r.Ok? ==> forall j :: 0 <= j < |r.value| ==> ReadRow(rows[j], width) == Values(r.value[j])
    ensures r.Ok? && |r.value| < |rows| ==> EndsColumn(rows[|r.value|]) || ReadRow(rows[|r.value|], width) == Stop
    ensures r.Err? ==> r.error == RetrievalError(Unsupported2D)
  {
    if rows == [] || EndsColumn(rows[0]) then Ok([])
    else
      match ReadRow(rows[0], width)
      case Stop => Ok([])
      case Fail(e) => Err(e)
      case Values(vs) =>
        match ReadRows(rows[1..], width)
        case Err(e) => Err(e)
        case Ok(rest) =>
          assert forall j :: 1 <= j < 1 + |rest| ==> rows[j] == rows[1..][j - 1];
          Ok([vs] + rest)
  }

  /** The 2D result for a selected text, which must be a sheet reference. */
  function Text2D(ds: DataSheet, s: string): (r: Result<seq<seq<DataValue>>, VariantError>)
    ensures SheetReference(s).None? ==> r == Err(RetrievalError(MissingSheetPrefix(s)))
    ensures SheetReference(s).Some? && SheetReference(s).value !in ds.sheets
      ==> r == Err(RetrievalError(SheetNotFound(SheetReference(s).value)))
    ensures SheetReference(s).Some? && SheetReference(s).value in ds.sheets && |ds.sheets[SheetReference(s).value]| == 0
      ==> r == Err(RetrievalError(NoHeaders))
    ensures SheetReference(s).Some? && SheetReference(s).value in ds.sheets && |ds.sheets[SheetReference(s).value]| > 0
        && LeadingNonEmpty(ds.sheets[SheetReference(s).value][0]) == 0
      ==> r == Err(RetrievalError(ZeroWidth))
    ensures r.Ok? ==>
      && SheetReference(s).Some? && SheetReference(s).value in ds.sheets
      && |ds.sheets[SheetReference(s).value]| > 0 && LeadingNonEmpty(ds.sheets[SheetReference(s).value][0]) >= 1
    ensures r.Ok? ==> forall j :: 0 <= j < |r.value| ==> |r.value[j]| == LeadingNonEmpty(ds.sheets[SheetReference(s).value][0])
  {
    match SheetReference(s)
    case None => Err(RetrievalError(MissingSheetPrefix(s)))
    case Some(sheet) =>
      if sheet !in ds.sheets then Err(RetrievalError(SheetNotFound(sheet)))
      else if |ds.sheets[sheet]| == 0 then Err(RetrievalError(NoHeaders))
      else if LeadingNonEmpty(ds.sheets[sheet][0]) == 0 then Err(RetrievalError(ZeroWidth))
      else ReadRows(ds.sheets[sheet][1..], LeadingNonEmpty(ds.sheets[sheet][0]))
  }

  /** What `retrieve_2d_array` returns. */
  function Retrieve2D(ds: DataSheet, name: string): (r: Result<seq<seq<DataValue>>, VariantError>)
    ensures r.Err? ==> r.error.WhileRetrieving? && r.error.name == name
    ensures RetrieveCell(ds, name).Err? ==> r == Err(WhileRetrieving(name, RetrieveCell(ds, name).error))
    ensures RetrieveCell(ds, name).Ok? && !RetrieveCell(ds, name).value.Text?
      ==> r == Err(WhileRetrieving(name, RetrievalError(StringExpectedFor2D)))
    ensures RetrieveCell(ds, name).Ok? && RetrieveCell(ds, name).value.Text?
      && SheetReference(RetrieveCell(ds, name).value.s).None?
      ==> r == Err(WhileRetrieving(name, RetrievalError(MissingSheetPrefix(RetrieveCell(ds, name).value.s))))
    ensures RetrieveCell(ds, name).Ok? && RetrieveCell(ds, name).value.Text?
      ==> r == Wrap(name, Text2D(ds, RetrieveCell(ds, name).value.s))
  {
    Wrap(name,
      match RetrieveCell(ds, name)
      case Err(e) => Err(e)
      case Ok(Text(s)) => Text2D(ds, s)
      case Ok(_) => Err(RetrievalError(StringExpectedFor2D)))
  }

  /** One cell of the inner loop: a non-empty cell that converts to v moves
      from the unread rest of the row to the values read. */
  lemma ReadRowStep(row: seq<Cell>, width: nat, col: nat, vals: seq<DataValue>, v: DataValue)
    requires col < width && col < |row|
    requires !CellIsEmpty(row[col]) && Convert2D(row[col]) == Ok(v)
    ensures RowPrefixed(vals, ReadRow(row[col..], width - col))
         == RowPrefixed(vals + [v], ReadRow(row[col + 1..], width - col - 1))
  {
    assert row[col..][1..] == row[col + 1..];
    assert row[col..][0] == row[col];
    match ReadRow(row[col + 1..], width - col - 1)
    case Values(vs) => assert vals + ([v] + vs) == (vals + [v]) + vs;
    case _ =>
  }

  /** The inner loop of `retrieve_2d_array`: the row's cells up to the
      width, until a missing or empty cell ends the walk or a cell fails to
      convert. */
  method ReadRowCells(row: seq<Cell>, width: nat) returns (o: RowOutcome)
    ensures o == ReadRow(row, width)
  {
    var vals: seq<DataValue> := [];
    var col := 0;
    while col < width
      invariant 0 <= col <= width && col <= |row|
      invariant ReadRow(row, width) == RowPrefixed(vals, ReadRow(row[col..], width - col))
    {
      if col >= |row| || CellIsEmpty(row[col]) {
        return Stop;
      }
      var v := Convert2D(row[col]);
      if v.Err? {
        return Fail(v.error);
      }
      ReadRowStep(row, width, col, vals, v.value);
      vals := vals + [v.value];
      col := col + 1;
    }
    assert vals + [] == vals;
    return Values(vals);
  }

  /** Extending the prefix of a walk by one element. */
  lemma PrefixedSnoc<T>(out: seq<T>, v: T, r: Result<seq<T>, VariantError>)
    ensures Prefixed(out, Prefixed([v], r)) == Prefixed(out + [v], r)
  {
    if r.Ok? {
      assert out + ([v] + r.value) == (out + [v]) + r.value;
    }
  }

  /** A row that reads as values is followed by the rows after it. */
  lemma ReadRowsStep(rows: seq<seq<Cell>>, width: nat, vs: seq<DataValue>)
    requires width >= 1 && rows != [] && !EndsColumn(rows[0])
    requires ReadRow(rows[0], width) == Values(vs)
    ensures ReadRows(rows, width) == Prefixed([vs], ReadRows(rows[1..], width))
  {
  }

  /** The outer loop of `retrieve_2d_array`: rows below the header until
      the first row that ends the walk. */
  method WalkRows(rows: Sheet, width: nat) returns (r: Result<seq<seq<DataValue>>, VariantError>)
    requires |rows| >= 1 && width >= 1
    ensures r == ReadRows(rows[1..], width)
  {
    var out: seq<seq<DataValue>> := [];
    var i := 1;
    while i < |rows|
      invariant 1 <= i <= |rows|
      invariant ReadRows(rows[1..], width) == Prefixed(out, ReadRows(rows[i..], width))
      decreases |rows| - i
    {
      var row := rows[i];
      if EndsColumn(row) {
        break;
      }
      var o := ReadRowCells(row, width);
      if o.Stop? {
        break;
      }
      if o.Fail? {
        return Err(o.error);
      }
      ReadRowsStep(rows[i..], width, o.values);
      assert rows[i..][1..] == rows[i + 1..];
      PrefixedSnoc(out, o.values, ReadRows(rows[i + 1..], width));
      out := out + [o.values];
      i := i + 1;
    }
    assert ReadRows(rows[i..], width) == Ok([]);
    assert out + [] == out;
    return Ok(out);
  }

  /** `retrieve_2d_array` */
  method Retrieve2DArray(ds: DataSheet, name: string) returns (r: Result<seq<seq<DataValue>>, VariantError>)
    ensures r == Retrieve2D(ds, name)
  {
    var cell := RetrieveCell(ds, name);
    if cell.Err? {
      return Wrap(name, Err(cell.error));
    }
    if !cell.value.Text? {
      return Wrap(name, Err(RetrievalError(StringExpectedFor2D)));
    }
    var s := cell.value.s;
    var reference := SheetReference(s);
    if reference.None? {
      return Wrap(name, Err(RetrievalError(MissingSheetPrefix(s))));
    }
    var sheetName := reference.value;
    if sheetName !in ds.sheets {
      return Wrap(name, Err(RetrievalError(SheetNotFound(sheetName))));
    }
    var rows := ds.sheets[sheetName];
    if |rows| == 0 {
      return Wrap(name, Err(RetrievalError(NoHeaders)));
    }
    var width := LeadingNonEmpty(rows[0]);
    if width == 0 {
      return Wrap(name, Err(RetrievalError(ZeroWidth)));
    }
    var table := WalkRows(rows, width);
    return Wrap(name, table);
  }

  /** Every row of a 2D table has exactly as many numbers as the header
      has leading non-empty cells, and there is at least one. */
  lemma Text2DRowsHaveWidth(ds: DataSheet, s: string)
    requires Text2D(ds, s).Ok?
    ensures var rows := ds.sheets[SheetReference(s).value];
      var width := LeadingNonEmpty(rows[0]);
      && width >= 1
      && forall j :: 0 <= j < |Text2D(ds, s).value| ==>
           |Text2D(ds, s).value[j]| == width
           && forall k :: 0 <= k < width ==> Text2D(ds, s).value[j][k].Int64? || Text2D(ds, s).value[j][k].Float64?
  {
    var rows := ds.sheets[SheetReference(s).value];
    var width := LeadingNonEmpty(rows[0]);
    var out: seq<seq<DataValue>> := Text2D(ds, s).value;
    assert ReadRows(rows[1..], width) == Ok(out);
    forall j | 0 <= j < |out|
      ensures |out[j]| == width
      ensures forall k :: 0 <= k < width ==> out[j][k].Int64? || out[j][k].Float64?
    {
      assert ReadRow(rows[1..][j], width) == Values(out[j]);
      forall k | 0 <= k < width ensures out[j][k].Int64? || out[j][k].Float64? {
        assert k < |rows[1..][j]| && Convert2D(rows[1..][j][k]) == Ok(out[j][k]);
      }
    }
  }
}
