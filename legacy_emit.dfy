/** The leaf emitter of the older pipeline (src/emit.rs): the bytes of a
    leaf as a single value, a one-dimensional array or string, or a
    two-dimensional array. Unlike the later emitter (src/layout/entry.rs) it
    has no strict size key and no overflow checks, and it takes a string for
    a leaf of any type. Each emitter is a method proved against a function
    that states its result. */
module LegacyEmit {
  import opened Common
  import opened Primitives
  import opened LayoutSettings
  import opened Errors
  import opened Schema
  import opened ValueBytes
  import LayoutEntry
  import Workbook
  import LayoutErrors

  /** The three data-sheet lookups the emitter calls by name. The data
      sheet of the same generation (src/variants.rs) declares only a cell
      lookup, so the lookups are given to the emitter as they are. */
  datatype Lookups = Lookups(
    single: string -> Result<DataValue, NvmError>,
    array1D: string -> Result<ValueSource, NvmError>,
    array2D: string -> Result<seq<seq<DataValue>>, NvmError>)

  /** Byte order, padding byte and the strictness of the value conversion. */
  datatype Target = Target(endianness: Endianness, padding: byte, strict: bool)

  // ---------------------------------------------------------------------
  // A single value

  /** `emit_bytes_single`: the value, looked up or literal, converted to the
      leaf's type; an array literal is refused. */
  function EmitSingle(leaf: LeafEntry, sheet: Lookups, target: Target, codec: FloatCodec): (r: Result<seq<byte>, NvmError>)
    ensures r.Ok? ==> |r.value| == leaf.scalarType.SizeBytes()
    ensures leaf.source.Name? && sheet.single(leaf.source.name).Err? ==> r == Err(sheet.single(leaf.source.name).error)
    ensures leaf.source.Value? && leaf.source.literal.Array? ==> r == Err(DataValueExportFailed(SingleExpected))
  {
    match leaf.source
    case Name(name) =>
      var v :- sheet.single(name);
      ToBytes(v, leaf.scalarType, target.endianness, target.strict, codec)
    case Value(Single(v)) => ToBytes(v, leaf.scalarType, target.endianness, target.strict, codec)
    case Value(Array(_)) => Err(DataValueExportFailed(SingleExpected))
  }

  // ---------------------------------------------------------------------
  // One-dimensional arrays and strings

  /** The bytes of a one-dimensional source before padding: a string as its
      UTF-8 bytes whatever the leaf's type, an array as its values one
      after another. */
  function SourceBytes(src: ValueSource, st: ScalarType, target: Target, codec: FloatCodec): (r: Result<seq<byte>, NvmError>)
    ensures src.Single? ==> (r.Ok? <==> src.value.Str?)
    ensures r.Ok? && src.Single? ==> r.value == Utf8(src.value.s)
    ensures r.Ok? && src.Array? ==> |r.value| == |src.values| * st.SizeBytes()
    ensures r.Err? ==> r.error.DataValueExportFailed?
  {
    match src
    case Single(v) => StringToBytes(v)
    case Array(vs) => ValuesBytes(vs, st, target.endianness, target.strict, codec)
  }

  /** The data of a one-dimensional leaf before padding. */
  function Data1D(leaf: LeafEntry, sheet: Lookups, target: Target, codec: FloatCodec): (r: Result<seq<byte>, NvmError>)
    ensures leaf.source.Value? ==> r == SourceBytes(leaf.source.literal, leaf.scalarType, target, codec)
    ensures leaf.source.Name? && sheet.array1D(leaf.source.name).Err? ==> r == Err(sheet.array1D(leaf.source.name).error)
    ensures leaf.source.Name? && sheet.array1D(leaf.source.name).Ok? ==>
      r == SourceBytes(sheet.array1D(leaf.source.name).value, leaf.scalarType, target, codec)
  {
    match leaf.source
    case Name(name) =>
      var src :- sheet.array1D(name);
      SourceBytes(src, leaf.scalarType, target, codec)
    case Value(src) => SourceBytes(src, leaf.scalarType, target, codec)
  }

  /** `emit_bytes_1d`: data longer than `size` elements is refused, shorter
      data is padded up to `size` elements. */
  function Emit1D(leaf: LeafEntry, sheet: Lookups, size: nat, target: Target, codec: FloatCodec): (r: Result<seq<byte>, NvmError>)
    ensures r.Ok? ==> |r.value| == size * leaf.scalarType.SizeBytes()
  {
    var total := size * leaf.scalarType.SizeBytes();
    var data :- Data1D(leaf, sheet, target, codec);
    if |data| > total then Err(DataValueExportFailed(LargerThanDefined))
    else Ok(Padded(data, total, target.padding))
  }

  /** A one-dimensional leaf is its data followed by padding; it fails
      exactly when reading the data fails or the data is too long. */
  lemma Emit1DLayout(leaf: LeafEntry, sheet: Lookups, size: nat, target: Target, codec: FloatCodec)
    ensures var r := Emit1D(leaf, sheet, size, target, codec);
      var data := Data1D(leaf, sheet, target, codec);
      var total := size * leaf.scalarType.SizeBytes();
      && (data.Err? ==> r == Err(data.error))
      && (data.Ok? && |data.value| > total ==> r == Err(DataValueExportFailed(LargerThanDefined)))
      && (r.Ok? <==> data.Ok? && |data.value| <= total)
      && (r.Ok? ==> r.value[..|data.value|] == data.value)
      && (r.Ok? ==> forall i :: |data.value| <= i < total ==> r.value[i] == target.padding)
  {
  }

  /** The lookup and conversion of `emit_bytes_1d`. */
  method ReadData1D(leaf: LeafEntry, sheet: Lookups, target: Target, codec: FloatCodec)
    returns (r: Result<seq<byte>, NvmError>)
    ensures r == Data1D(leaf, sheet, target, codec)
  {
    var src: ValueSource;
    match leaf.source {
      case Name(name) =>
        var found := sheet.array1D(name);
        if found.Err? {
          return Err(found.error);
        }
        src := found.value;
      case Value(literal) =>
        src := literal;
    }
    match src {
      case Single(v) =>
        r := StringToBytes(v);
      case Array(vs) =>
        var bytes := AppendValues([], vs, leaf.scalarType, target.endianness, target.strict, codec);
        var expected := ValuesBytes(vs, leaf.scalarType, target.endianness, target.strict, codec);
        if bytes.Err? {
          assert expected.Err? && expected.error == bytes.error;
          return Err(bytes.error);
        }
        assert [] + expected.value == expected.value;
        r := Ok(bytes.value);
    }
  }

  /** The method form of `emit_bytes_1d`, with its padding loop. */
  method EmitBytes1D(leaf: LeafEntry, sheet: Lookups, size: nat, target: Target, codec: FloatCodec)
    returns (r: Result<seq<byte>, NvmError>)
    ensures r == Emit1D(leaf, sheet, size, target, codec)
  {
    var total := size * leaf.scalarType.SizeBytes();
    var data := ReadData1D(leaf, sheet, target, codec);
    if data.Err? {
      return Err(data.error);
    }
    if |data.value| > total {
      return Err(DataValueExportFailed(LargerThanDefined));
    }
    var out := PadTo(data.value, total, target.padding);
    r := Ok(out);
  }

  // ---------------------------------------------------------------------
  // Two-dimensional arrays

  /** The checks and conversion of `emit_bytes_2d` once the rows are read:
      every row must have `cols` values and there may be no more rows than
      declared; the values are written row by row and padded to
      `rows * cols` elements. */
  function Shape2D(data: seq<seq<DataValue>>, rows: nat, cols: nat, st: ScalarType, target: Target, codec: FloatCodec): (r: Result<seq<byte>, NvmError>)
    ensures r.Ok? ==> |r.value| == rows * cols * st.SizeBytes()
  {
    var total := rows * cols * st.SizeBytes();
    if !Rectangular(data, cols) then Err(DataValueExportFailed(ColumnMismatch))
    else if |data| > rows then Err(DataValueExportFailed(TooManyRows))
    else
      Size2D(data, rows, cols, st.SizeBytes());
      var body :- ValuesBytes(Flatten(data), st, target.endianness, target.strict, codec);
      Ok(Padded(body, total, target.padding))
  }

  /** The two checks of `emit_bytes_2d`, in the order it makes them, and
      what a rectangle that passes them emits: its values row by row (see
      `ValueBytes.RowMajor` for where each value lands), then padding. */
  lemma Shape2DLayout(data: seq<seq<DataValue>>, rows: nat, cols: nat, st: ScalarType, target: Target, codec: FloatCodec)
    ensures var r := Shape2D(data, rows, cols, st, target, codec);
      && (!Rectangular(data, cols) ==> r == Err(DataValueExportFailed(ColumnMismatch)))
      && (Rectangular(data, cols) && |data| > rows ==> r == Err(DataValueExportFailed(TooManyRows)))
      && (r.Ok? ==> Rectangular(data, cols) && |data| <= rows)
    ensures var r := Shape2D(data, rows, cols, st, target, codec);
      var body := ValuesBytes(Flatten(data), st, target.endianness, target.strict, codec);
      && (Rectangular(data, cols) && |data| <= rows ==> (r.Ok? <==> body.Ok?))
      && (r.Ok? ==> |body.value| <= |r.value| && r.value[..|body.value|] == body.value)
      && (r.Ok? ==> forall i :: |body.value| <= i < |r.value| ==> r.value[i] == target.padding)
  {
    if Rectangular(data, cols) && |data| <= rows {
      Size2D(data, rows, cols, st.SizeBytes());
    }
  }

  /** `emit_bytes_2d`: the rectangle is looked up and shaped; a literal is
      refused. */
  function Emit2D(leaf: LeafEntry, sheet: Lookups, rows: nat, cols: nat, target: Target, codec: FloatCodec): (r: Result<seq<byte>, NvmError>)
    ensures leaf.source.Value? ==> r == Err(DataValueExportFailed(TwoDLiteral))
    ensures leaf.source.Name? && sheet.array2D(leaf.source.name).Err? ==> r == Err(sheet.array2D(leaf.source.name).error)
    ensures leaf.source.Name? && sheet.array2D(leaf.source.name).Ok? ==>
      r == Shape2D(sheet.array2D(leaf.source.name).value, rows, cols, leaf.scalarType, target, codec)
    ensures r.Ok? ==> |r.value| == rows * cols * leaf.scalarType.SizeBytes()
  {
    match leaf.source
    case Name(name) =>
      var data :- sheet.array2D(name);
      Shape2D(data, rows, cols, leaf.scalarType, target, codec)
    case Value(_) => Err(DataValueExportFailed(TwoDLiteral))
  }

  /** The loops of `emit_bytes_2d` once the rows are read. */
  method ShapeRows(data: seq<seq<DataValue>>, rows: nat, cols: nat, st: ScalarType, target: Target, codec: FloatCodec)
    returns (r: Result<seq<byte>, NvmError>)
    ensures r == Shape2D(data, rows, cols, st, target, codec)
  {
    var total := rows * cols * st.SizeBytes();
    var rectangular := AllRowsHave(data, cols);
    if !rectangular {
      return Err(DataValueExportFailed(ColumnMismatch));
    }
    if |data| > rows {
      return Err(DataValueExportFailed(TooManyRows));
    }
    Size2D(data, rows, cols, st.SizeBytes());
    var bytes := AppendRows(data, st, target.endianness, target.strict, codec);
    if bytes.Err? {
      return Err(bytes.error);
    }
    var out := PadTo(bytes.value, total, target.padding);
    r := Ok(out);
  }

  /** The method form of `emit_bytes_2d`. */
  method EmitBytes2D(leaf: LeafEntry, sheet: Lookups, rows: nat, cols: nat, target: Target, codec: FloatCodec)
    returns (r: Result<seq<byte>, NvmError>)
    ensures r == Emit2D(leaf, sheet, rows, cols, target, codec)
  {
    if leaf.source.Value? {
      return Err(DataValueExportFailed(TwoDLiteral));
    }
    var found := sheet.array2D(leaf.source.name);
    if found.Err? {
      return Err(found.error);
    }
    r := ShapeRows(found.value, rows, cols, leaf.scalarType, target, codec);
  }

  // ---------------------------------------------------------------------
  // A leaf

  /** `emit_bytes`: the declared size chooses the emitter. */
  function Emit(leaf: LeafEntry, sheet: Lookups, target: Target, codec: FloatCodec): (r: Result<seq<byte>, NvmError>)
    ensures leaf.size.None? ==> r == EmitSingle(leaf, sheet, target, codec)
    ensures leaf.size.Some? && leaf.size.value.OneD? ==> r == Emit1D(leaf, sheet, leaf.size.value.size, target, codec)
    ensures leaf.size.Some? && leaf.size.value.TwoD? ==>
      r == Emit2D(leaf, sheet, leaf.size.value.rows, leaf.size.value.cols, target, codec)
  {
    match leaf.size
    case None => EmitSingle(leaf, sheet, target, codec)
    case Some(OneD(n)) => Emit1D(leaf, sheet, n, target, codec)
    case Some(TwoD(rows, cols)) => Emit2D(leaf, sheet, rows, cols, target, codec)
  }

  /** What a leaf emits is a whole number of elements of its type. */
  lemma EmitIsWholeElements(leaf: LeafEntry, sheet: Lookups, target: Target, codec: FloatCodec)
    requires Emit(leaf, sheet, target, codec).Ok?
    ensures |Emit(leaf, sheet, target, codec).value| % leaf.Alignment() == 0
  {
    var w := leaf.Alignment();
    var n := |Emit(leaf, sheet, target, codec).value|;
    var k: int;
    match leaf.size {
      case None =>
        assert n == |EmitSingle(leaf, sheet, target, codec).value|;
        k := 1;
      case Some(OneD(count)) =>
        assert n == |Emit1D(leaf, sheet, count, target, codec).value|;
        k := count;
      case Some(TwoD(rows, cols)) =>
        assert n == |Emit2D(leaf, sheet, rows, cols, target, codec).value|;
        k := rows * cols;
    }
    DivUnique(n, w, k, 0);
  }

  /** The method form of `emit_bytes`. */
  method EmitBytes(leaf: LeafEntry, sheet: Lookups, target: Target, codec: FloatCodec)
    returns (r: Result<seq<byte>, NvmError>)
    ensures r == Emit(leaf, sheet, target, codec)
  {
    match leaf.size {
      case None => r := EmitSingle(leaf, sheet, target, codec);
      case Some(OneD(n)) => r := EmitBytes1D(leaf, sheet, n, target, codec);
      case Some(TwoD(rows, cols)) => r := EmitBytes2D(leaf, sheet, rows, cols, target, codec);
    }
  }

  // ---------------------------------------------------------------------
  // The two generations side by side

  /** A literal array under `size` within the overflow bound emits the same
      bytes, and fails for the same reason, in both generations. */
  lemma LiteralArraysAgree(vs: seq<DataValue>, st: ScalarType, size: u64, sheet: Lookups,
                           ds: Option<Workbook.DataSheet>, config: LayoutEntry.BuildConfig, codec: FloatCodec)
    requires size * st.SizeBytes() < LayoutEntry.USIZE_LIMIT
    ensures var older := Emit(LeafEntry(st, Some(OneD(size)), Value(Array(vs))), sheet,
                              Target(config.endianness, config.padding, config.strict), codec);
      var later := LayoutEntry.Emit(LayoutEntry.LeafEntry.LeafEntry(st, LayoutEntry.SizeKeys(Some(OneD(size)), None), Value(Array(vs))),
                                    ds, config, codec);
      && (older.Err? ==> older.error.DataValueExportFailed?)
      && later == LayoutEntry.Exported(older)
  {
    var leaf := LayoutEntry.LeafEntry.LeafEntry(st, LayoutEntry.SizeKeys(Some(OneD(size)), None), Value(Array(vs)));
    LayoutEntry.Emit1DShapesData(leaf, ds, size, config, false, codec);
  }

  /** The older emitter writes a string into a leaf of any type, padded to
      the leaf's byte size; the later one refuses a string for anything but
      `u8`. */
  lemma StringForAnyType(s: string, st: ScalarType, size: u64, sheet: Lookups,
                         ds: Option<Workbook.DataSheet>, config: LayoutEntry.BuildConfig, codec: FloatCodec)
    requires st != U8
    requires |Utf8(s)| <= size * st.SizeBytes() < LayoutEntry.USIZE_LIMIT
    ensures Emit(LeafEntry(st, Some(OneD(size)), Value(Single(Str(s)))), sheet,
                 Target(config.endianness, config.padding, config.strict), codec)
         == Ok(Utf8(s) + Fill(size * st.SizeBytes() - |Utf8(s)|, config.padding))
    ensures LayoutEntry.Emit(LayoutEntry.LeafEntry.LeafEntry(st, LayoutEntry.SizeKeys(Some(OneD(size)), None), Value(Single(Str(s)))),
                             ds, config, codec)
         == Err(LayoutErrors.LayoutError.DataValueExportFailed(StringsNeedU8))
  {
    var leaf := LayoutEntry.LeafEntry.LeafEntry(st, LayoutEntry.SizeKeys(Some(OneD(size)), None), Value(Single(Str(s))));
    LayoutEntry.Emit1DShapesData(leaf, ds, size, config, false, codec);
    var target := Target(config.endianness, config.padding, config.strict);
    assert Data1D(LeafEntry(st, Some(OneD(size)), Value(Single(Str(s)))), sheet, target, codec) == Ok(Utf8(s));
    assert Fill(0, config.padding) == [] && Utf8(s) + [] == Utf8(s);
  }
}
