/** A leaf of the later layout builder (src/layout/entry.rs): its size keys
    (`size`, or the strict `SIZE`), its source (a literal, or a name looked
    up in the data sheet), and the bytes it emits as a single value, a
    one-dimensional array or string, or a two-dimensional array. Each
    emitter is a method proved against a function that states its result;
    the lemmas below state what those results mean. */
module LayoutEntry {
  import opened Common
  import opened Primitives
  import opened LayoutSettings
  import opened Errors
  import opened Schema
  import opened Workbook
  import opened ValueBytes
  import Variant
  import opened LayoutErrors

  /** The two spellings of a size: `size` pads a short array, `SIZE`
      refuses it. */
  datatype SizeKeys = SizeKeys(size: Option<SizeSource>, strictSize: Option<SizeSource>)

  /** Byte order, padding byte and strict conversion of the build. */
  datatype BuildConfig = BuildConfig(endianness: Endianness, padding: byte, strict: bool)

  datatype LeafEntry = LeafEntry(scalarType: ScalarType, sizeKeys: SizeKeys, source: EntrySource)
  {
    /** `get_alignment`: a leaf is aligned to its scalar width. */
    function Alignment(): (r: nat)
      ensures r == scalarType.SizeBytes() && r >= 1
    {
      scalarType.SizeBytes()
    }
  }

  /** `usize` is taken to be 64 bits wide: a `checked_mul` fails at 2^64. */
  const USIZE_LIMIT: int := U64_LIMIT

  /** `SizeKeys::resolve`: at most one of the two keys, and whether it was
      the strict one. */
  function Resolve(k: SizeKeys): (r: Result<(Option<SizeSource>, bool), LayoutError>)
    ensures r.Ok? <==> !(k.size.Some? && k.strictSize.Some?)
    ensures r.Ok? ==> r.value.0 == (if k.size.Some? then k.size else k.strictSize)
    ensures r.Ok? ==> (r.value.1 <==> k.strictSize.Some?)
    ensures r.Err? ==> r.error == LayoutError.DataValueExportFailed(BothSizeKeys)
  {
    match (k.size, k.strictSize)
    case (Some(_), Some(_)) => Err(LayoutError.DataValueExportFailed(BothSizeKeys))
    case (Some(s), None) => Ok((Some(s), false))
    case (None, Some(s)) => Ok((Some(s), true))
    case (None, None) => Ok((None, false))
  }

  // ---------------------------------------------------------------------
  // Errors from the conversions and from the data sheet

  /** A conversion failure becomes the layout error with the same reason. */
  function Exported<T>(r: Result<T, NvmError>): (x: Result<T, LayoutError>)
    requires r.Err? ==> r.error.DataValueExportFailed?
    ensures x.Ok? <==> r.Ok?
    ensures x.Ok? ==> x.value == r.value
    ensures x.Err? ==> x.error == LayoutError.DataValueExportFailed(r.error.why)
  {
    match r
    case Ok(v) => Ok(v)
    case Err(e) => Err(LayoutError.DataValueExportFailed(e.why))
  }

  /** A data-sheet failure is carried as it is (`#[from] VariantError`). */
  function FromSheet<T>(r: Result<T, Variant.VariantError>): (x: Result<T, LayoutError>)
    ensures x.Ok? <==> r.Ok?
    ensures x.Ok? ==> x.value == r.value
    ensures x.Err? ==> x.error == VariantFailure(r.error)
  {
    match r
    case Ok(v) => Ok(v)
    case Err(e) => Err(VariantFailure(e))
  }

  // ---------------------------------------------------------------------
  // A single value

  /** `emit_bytes_single`: the value, from the sheet or the literal,
      converted to the leaf's type; an array literal is refused. */
  function EmitSingle(leaf: LeafEntry, ds: Option<DataSheet>, config: BuildConfig, codec: FloatCodec): (r: Result<seq<byte>, LayoutError>)
    ensures r.Ok? ==> |r.value| == leaf.scalarType.SizeBytes()
    ensures leaf.source.Name? && ds.None? ==> r == Err(MissingDataSheet(leaf.source.name))
    ensures leaf.source.Name? && ds.Some? ==>
      && (Variant.RetrieveSingleValue(ds.value, leaf.source.name).Err? ==>
            r == Err(VariantFailure(Variant.RetrieveSingleValue(ds.value, leaf.source.name).error)))
      && (Variant.RetrieveSingleValue(ds.value, leaf.source.name).Ok? ==>
            r == Exported(ToBytes(Variant.RetrieveSingleValue(ds.value, leaf.source.name).value,
                                  leaf.scalarType, config.endianness, config.strict, codec)))
    ensures leaf.source.Value? && leaf.source.literal.Single? ==>
      r == Exported(ToBytes(leaf.source.literal.value, leaf.scalarType, config.endianness, config.strict, codec))
    ensures leaf.source.Value? && leaf.source.literal.Array? ==>
      r == Err(LayoutError.DataValueExportFailed(SingleExpected))
  {
    match leaf.source
    case Name(name) =>
      if ds.None? then Err(MissingDataSheet(name))
      else
        var v :- FromSheet(Variant.RetrieveSingleValue(ds.value, name));
        Exported(ToBytes(v, leaf.scalarType, config.endianness, config.strict, codec))
    case Value(Single(v)) => Exported(ToBytes(v, leaf.scalarType, config.endianness, config.strict, codec))
    case Value(Array(_)) => Err(LayoutError.DataValueExportFailed(SingleExpected))
  }

  // ---------------------------------------------------------------------
  // One-dimensional arrays and strings

  /** The bytes of a one-dimensional source before padding: a string (only
      for `u8`) as its UTF-8 bytes, an array as its values one after
      another. */
  function SourceBytes1D(src: ValueSource, st: ScalarType, config: BuildConfig, codec: FloatCodec): (r: Result<seq<byte>, LayoutError>)
    ensures src.Single? && st != U8 ==> r == Err(LayoutError.DataValueExportFailed(StringsNeedU8))
    ensures src.Single? && st == U8 ==> r == Exported(StringToBytes(src.value))
    ensures src.Array? ==> r == Exported(ValuesBytes(src.values, st, config.endianness, config.strict, codec))
    ensures r.Ok? && src.Array? ==> |r.value| == |src.values| * st.SizeBytes()
  {
    match src
    case Single(v) =>
      if st != U8 then Err(LayoutError.DataValueExportFailed(StringsNeedU8))
      else Exported(StringToBytes(v))
    case Array(vs) => Exported(ValuesBytes(vs, st, config.endianness, config.strict, codec))
  }

  /** Where a one-dimensional leaf's values come from: the literal, or the
      array or string the data sheet holds under the name. */
  function Source1D(leaf: LeafEntry, ds: Option<DataSheet>): (r: Result<ValueSource, LayoutError>)
    ensures leaf.source.Value? ==> r == Ok(leaf.source.literal)
    ensures leaf.source.Name? && ds.None? ==> r == Err(MissingDataSheet(leaf.source.name))
    ensures leaf.source.Name? && ds.Some? ==> r == FromSheet(Variant.Retrieve1D(ds.value, leaf.source.name))
  {
    match leaf.source
    case Name(name) =>
      if ds.None? then Err(MissingDataSheet(name))
      else FromSheet(Variant.Retrieve1D(ds.value, name))
    case Value(src) => Ok(src)
  }

  /** The data of a one-dimensional leaf, before padding. */
  function Data1D(leaf: LeafEntry, ds: Option<DataSheet>, config: BuildConfig, codec: FloatCodec): (r: Result<seq<byte>, LayoutError>)
    ensures Source1D(leaf, ds).Err? ==> r == Err(Source1D(leaf, ds).error)
    ensures Source1D(leaf, ds).Ok? ==> r == SourceBytes1D(Source1D(leaf, ds).value, leaf.scalarType, config, codec)
  {
    var src :- Source1D(leaf, ds);
    SourceBytes1D(src, leaf.scalarType, config, codec)
  }

  /** The size checks and padding of `emit_bytes_1d`: data longer than
      `total` bytes is refused whatever the key, shorter data is refused
      under `SIZE` and otherwise padded up to `total`. */
  function Shape1D(data: seq<byte>, total: nat, padding: byte, strictLen: bool): (r: Result<seq<byte>, LayoutError>)
    ensures r.Ok? <==> |data| <= total && (strictLen ==> |data| == total)
    ensures r.Ok? ==> |r.value| == total && r.value[..|data|] == data
    ensures r.Ok? ==> forall i :: |data| <= i < total ==> r.value[i] == padding
    ensures |data| > total ==> r == Err(LayoutError.DataValueExportFailed(LargerThanDefined))
    ensures |data| < total && strictLen ==> r == Err(LayoutError.DataValueExportFailed(SmallerThanDefined))
  {
    if |data| > total then Err(LayoutError.DataValueExportFailed(LargerThanDefined))
    else if strictLen && |data| < total then Err(LayoutError.DataValueExportFailed(SmallerThanDefined))
    else Ok(Padded(data, total, padding))
  }

  /** `emit_bytes_1d`: the byte count is checked for overflow first, then
      the data is read and shaped to `size` elements. */
  function Emit1D(leaf: LeafEntry, ds: Option<DataSheet>, size: nat, config: BuildConfig, strictLen: bool, codec: FloatCodec): (r: Result<seq<byte>, LayoutError>)
    ensures size * leaf.scalarType.SizeBytes() >= USIZE_LIMIT ==> r == Err(LayoutError.DataValueExportFailed(SizeOverflow))
    ensures r.Ok? ==> |r.value| == size * leaf.scalarType.SizeBytes()
  {
    var total := size * leaf.scalarType.SizeBytes();
    if total >= USIZE_LIMIT then Err(LayoutError.DataValueExportFailed(SizeOverflow))
    else
      var data :- Data1D(leaf, ds, config, codec);
      Shape1D(data, total, config.padding, strictLen)
  }

  /** Below the overflow bound, a one-dimensional leaf is its data shaped to
      the declared size, or the failure to read that data. */
  lemma Emit1DShapesData(leaf: LeafEntry, ds: Option<DataSheet>, size: nat, config: BuildConfig, strictLen: bool, codec: FloatCodec)
    requires size * leaf.scalarType.SizeBytes() < USIZE_LIMIT
    ensures Data1D(leaf, ds, config, codec).Err? ==>
      Emit1D(leaf, ds, size, config, strictLen, codec) == Err(Data1D(leaf, ds, config, codec).error)
    ensures Data1D(leaf, ds, config, codec).Ok? ==>
      Emit1D(leaf, ds, size, config, strictLen, codec)
        == Shape1D(Data1D(leaf, ds, config, codec).value, size * leaf.scalarType.SizeBytes(), config.padding, strictLen)
  {
  }

  /** The lookup of `emit_bytes_1d`. */
  method ReadSource1D(leaf: LeafEntry, ds: Option<DataSheet>) returns (r: Result<ValueSource, LayoutError>)
    ensures r == Source1D(leaf, ds)
  {
    match leaf.source {
      case Name(name) =>
        if ds.None? {
          return Err(MissingDataSheet(name));
        }
        var found := Variant.Retrieve1DArrayOrString(ds.value, name);
        if found.Err? {
          return Err(VariantFailure(found.error));
        }
        r := Ok(found.value);
      case Value(literal) =>
        r := Ok(literal);
    }
  }

  /** The conversion of `emit_bytes_1d`: a string only for `u8`, an array
      value by value. */
  method ConvertSource1D(src: ValueSource, st: ScalarType, config: BuildConfig, codec: FloatCodec)
    returns (r: Result<seq<byte>, LayoutError>)
    ensures r == SourceBytes1D(src, st, config, codec)
  {
    match src {
      case Single(v) =>
        if st != U8 {
          return Err(LayoutError.DataValueExportFailed(StringsNeedU8));
        }
        var bytes := StringToBytes(v);
        if bytes.Err? {
          return Err(LayoutError.DataValueExportFailed(bytes.error.why));
        }
        r := Ok(bytes.value);
      case Array(vs) =>
        var bytes := AppendValues([], vs, st, config.endianness, config.strict, codec);
        var expected := ValuesBytes(vs, st, config.endianness, config.strict, codec);
        if bytes.Err? {
          assert expected.Err? && expected.error == bytes.error;
          return Err(LayoutError.DataValueExportFailed(bytes.error.why));
        }
        assert [] + expected.value == expected.value;
        r := Ok(bytes.value);
    }
  }

  /** The checking and padding half of `emit_bytes_1d`. */
  method ShapeData(data: seq<byte>, total: nat, padding: byte, strictLen: bool) returns (r: Result<seq<byte>, LayoutError>)
    ensures r == Shape1D(data, total, padding, strictLen)
  {
    if |data| > total {
      return Err(LayoutError.DataValueExportFailed(LargerThanDefined));
    }
    if strictLen && |data| < total {
      return Err(LayoutError.DataValueExportFailed(SmallerThanDefined));
    }
    var padded := PadTo(data, total, padding);
    r := Ok(padded);
  }

  /** The method form of `emit_bytes_1d`. */
  method EmitBytes1D(leaf: LeafEntry, ds: Option<DataSheet>, size: nat, config: BuildConfig, strictLen: bool, codec: FloatCodec)
    returns (r: Result<seq<byte>, LayoutError>)
    ensures r == Emit1D(leaf, ds, size, config, strictLen, codec)
  {
    var total := size * leaf.scalarType.SizeBytes();
    if total >= USIZE_LIMIT {
      return Err(LayoutError.DataValueExportFailed(SizeOverflow));
    }
    var src := ReadSource1D(leaf, ds);
    if src.Err? {
      return Err(src.error);
    }
    var data := ConvertSource1D(src.value, leaf.scalarType, config, codec);
    if data.Err? {
      return Err(data.error);
    }
    r := ShapeData(data.value, total, config.padding, strictLen);
  }

  /** A string literal for a `u8` array is its UTF-8 bytes followed by
      padding; longer than the array it is refused. */
  lemma StringLeafIsPaddedUtf8(s: string, size: nat, config: BuildConfig, strictLen: bool, codec: FloatCodec)
    requires size < USIZE_LIMIT
    ensures var leaf := LeafEntry.LeafEntry(U8, SizeKeys(None, None), Value(Single(Str(s))));
      && (|Utf8(s)| <= size && !strictLen ==>
            Emit1D(leaf, None, size, config, strictLen, codec) == Ok(Utf8(s) + Fill(size - |Utf8(s)|, config.padding)))
      && (|Utf8(s)| > size ==>
            Emit1D(leaf, None, size, config, strictLen, codec) == Err(LayoutError.DataValueExportFailed(LargerThanDefined)))
  {
    var leaf := LeafEntry.LeafEntry(U8, SizeKeys(None, None), Value(Single(Str(s))));
    var bytes := Utf8(s);
    assert size * leaf.scalarType.SizeBytes() == size;
    assert Data1D(leaf, None, config, codec) == Ok(bytes);
    Emit1DShapesData(leaf, None, size, config, strictLen, codec);
    if |bytes| <= size {
      PaddedIsFill(bytes, size, config.padding);
    }
  }

  /** A string read for any type but `u8` is refused, before its length is
      looked at. */
  lemma StringNeedsU8(leaf: LeafEntry, v: DataValue, size: nat, config: BuildConfig, strictLen: bool, codec: FloatCodec)
    requires leaf.source == Value(Single(v)) && leaf.scalarType != U8
    requires size * leaf.scalarType.SizeBytes() < USIZE_LIMIT
    ensures Emit1D(leaf, None, size, config, strictLen, codec) == Err(LayoutError.DataValueExportFailed(StringsNeedU8))
  {
    Emit1DShapesData(leaf, None, size, config, strictLen, codec);
  }

  // ---------------------------------------------------------------------
  // Two-dimensional arrays

  /** The checks and conversion of `emit_bytes_2d` once the rows are read:
      the two products are checked for overflow, every row must have `cols`
      values, there may be no more rows than declared (and, under `SIZE`,
      no fewer); the values are written row by row and padded to
      `rows * cols` elements. */
  function Shape2D(data: seq<seq<DataValue>>, rows: nat, cols: nat, st: ScalarType, config: BuildConfig, strictLen: bool, codec: FloatCodec): (r: Result<seq<byte>, LayoutError>)
    ensures r.Ok? ==> |r.value| == rows * cols * st.SizeBytes()
  {
    var w := st.SizeBytes();
    if rows * cols >= USIZE_LIMIT then Err(LayoutError.DataValueExportFailed(ElementCountOverflow))
    else if rows * cols * w >= USIZE_LIMIT then Err(LayoutError.DataValueExportFailed(ByteCountOverflow))
    else if !Rectangular(data, cols) then Err(LayoutError.DataValueExportFailed(ColumnMismatch))
    else if |data| > rows then Err(LayoutError.DataValueExportFailed(TooManyRows))
    else if strictLen && |data| < rows then Err(LayoutError.DataValueExportFailed(TooFewRows))
    else
      Size2D(data, rows, cols, w);
      Write2D(data, rows * cols * w, st, config, codec)
  }

  /** The values of the rows, row by row, padded up to `total` bytes. */
  function Write2D(data: seq<seq<DataValue>>, total: nat, st: ScalarType, config: BuildConfig, codec: FloatCodec): (r: Result<seq<byte>, LayoutError>)
    ensures r.Ok? && |Flatten(data)| * st.SizeBytes() <= total ==> |r.value| == total
  {
    var body :- Exported(ValuesBytes(Flatten(data), st, config.endianness, config.strict, codec));
    Ok(Padded(body, total, config.padding))
  }

  /** The checks of `emit_bytes_2d`, in the order the source makes them:
      the two products, the width of every row, too many rows, and, under
      `SIZE`, too few. */
  lemma Shape2DChecks(data: seq<seq<DataValue>>, rows: nat, cols: nat, st: ScalarType, config: BuildConfig, strictLen: bool, codec: FloatCodec)
    ensures var r := Shape2D(data, rows, cols, st, config, strictLen, codec);
      var total := rows * cols * st.SizeBytes();
      && (rows * cols >= USIZE_LIMIT ==> r == Err(LayoutError.DataValueExportFailed(ElementCountOverflow)))
      && (rows * cols < USIZE_LIMIT <= total ==> r == Err(LayoutError.DataValueExportFailed(ByteCountOverflow)))
      && (total < USIZE_LIMIT && !Rectangular(data, cols) ==> r == Err(LayoutError.DataValueExportFailed(ColumnMismatch)))
      && (total < USIZE_LIMIT && Rectangular(data, cols) && |data| > rows ==>
            r == Err(LayoutError.DataValueExportFailed(TooManyRows)))
      && (total < USIZE_LIMIT && Rectangular(data, cols) && |data| < rows && strictLen ==>
            r == Err(LayoutError.DataValueExportFailed(TooFewRows)))
      && (r.Ok? ==> total < USIZE_LIMIT && Rectangular(data, cols) && |data| <= rows && (strictLen ==> |data| == rows))
  {
    MulMonotone(1, st.SizeBytes(), rows * cols);
  }

  /** What a rectangle that passes the checks emits: its values row by row,
      then padding up to `rows * cols` elements. */
  lemma Shape2DLayout(data: seq<seq<DataValue>>, rows: nat, cols: nat, st: ScalarType, config: BuildConfig, strictLen: bool, codec: FloatCodec)
    requires Shape2D(data, rows, cols, st, config, strictLen, codec).Ok?
    ensures ValuesBytes(Flatten(data), st, config.endianness, config.strict, codec).Ok?
    ensures var r := Shape2D(data, rows, cols, st, config, strictLen, codec).value;
      var body := ValuesBytes(Flatten(data), st, config.endianness, config.strict, codec).value;
      && |body| <= |r|
      && r[..|body|] == body
      && forall i :: |body| <= i < |r| ==> r[i] == config.padding
  {
    Shape2DChecks(data, rows, cols, st, config, strictLen, codec);
  }

  /** `emit_bytes_2d`: the rectangle is read from the data sheet and
      shaped; a literal is refused. */
  function Emit2D(leaf: LeafEntry, ds: Option<DataSheet>, rows: nat, cols: nat, config: BuildConfig, strictLen: bool, codec: FloatCodec): (r: Result<seq<byte>, LayoutError>)
    ensures leaf.source.Value? ==> r == Err(LayoutError.DataValueExportFailed(TwoDLiteral))
    ensures leaf.source.Name? && ds.None? ==> r == Err(MissingDataSheet(leaf.source.name))
    ensures r.Ok? ==> |r.value| == rows * cols * leaf.scalarType.SizeBytes()
  {
    match leaf.source
    case Value(_) => Err(LayoutError.DataValueExportFailed(TwoDLiteral))
    case Name(name) =>
      if ds.None? then Err(MissingDataSheet(name))
      else
        var data :- FromSheet(Variant.Retrieve2D(ds.value, name));
        Shape2D(data, rows, cols, leaf.scalarType, config, strictLen, codec)
  }

  /** A named two-dimensional leaf is the sheet's rectangle shaped to the
      declared size, or the sheet's failure to give one. */
  lemma Emit2DShapesSheet(leaf: LeafEntry, ds: DataSheet, rows: nat, cols: nat, config: BuildConfig, strictLen: bool, codec: FloatCodec)
    requires leaf.source.Name?
    ensures Variant.Retrieve2D(ds, leaf.source.name).Err? ==>
      Emit2D(leaf, Some(ds), rows, cols, config, strictLen, codec) == Err(VariantFailure(Variant.Retrieve2D(ds, leaf.source.name).error))
    ensures Variant.Retrieve2D(ds, leaf.source.name).Ok? ==>
      Emit2D(leaf, Some(ds), rows, cols, config, strictLen, codec)
        == Shape2D(Variant.Retrieve2D(ds, leaf.source.name).value, rows, cols, leaf.scalarType, config, strictLen, codec)
  {
  }

  /** The conversion and padding loops of `emit_bytes_2d`. */
  method WriteRows(data: seq<seq<DataValue>>, total: nat, st: ScalarType, config: BuildConfig, codec: FloatCodec)
    returns (r: Result<seq<byte>, LayoutError>)
    ensures r == Write2D(data, total, st, config, codec)
  {
    var bytes := AppendRows(data, st, config.endianness, config.strict, codec);
    if bytes.Err? {
      return Err(LayoutError.DataValueExportFailed(bytes.error.why));
    }
    var out := PadTo(bytes.value, total, config.padding);
    r := Ok(out);
  }

  /** The checks and loops of `emit_bytes_2d` once the rows are read. */
  method ShapeRows(data: seq<seq<DataValue>>, rows: nat, cols: nat, st: ScalarType, config: BuildConfig, strictLen: bool, codec: FloatCodec)
    returns (r: Result<seq<byte>, LayoutError>)
    ensures r == Shape2D(data, rows, cols, st, config, strictLen, codec)
  {
    var w := st.SizeBytes();
    if rows * cols >= USIZE_LIMIT {
      return Err(LayoutError.DataValueExportFailed(ElementCountOverflow));
    }
    var total := rows * cols * w;
    if total >= USIZE_LIMIT {
      return Err(LayoutError.DataValueExportFailed(ByteCountOverflow));
    }
    var rectangular := AllRowsHave(data, cols);
    if !rectangular {
      return Err(LayoutError.DataValueExportFailed(ColumnMismatch));
    }
    if |data| > rows {
      return Err(LayoutError.DataValueExportFailed(TooManyRows));
    }
    if strictLen && |data| < rows {
      return Err(LayoutError.DataValueExportFailed(TooFewRows));
    }
    Size2D(data, rows, cols, w);
    r := WriteRows(data, total, st, config, codec);
  }

  /** The method form of `emit_bytes_2d`. */
  method EmitBytes2D(leaf: LeafEntry, ds: Option<DataSheet>, rows: nat, cols: nat, config: BuildConfig, strictLen: bool, codec: FloatCodec)
    returns (r: Result<seq<byte>, LayoutError>)
    ensures r == Emit2D(leaf, ds, rows, cols, config, strictLen, codec)
  {
    if leaf.source.Value? {
      return Err(LayoutError.DataValueExportFailed(TwoDLiteral));
    }
    var name := leaf.source.name;
    if ds.None? {
      return Err(MissingDataSheet(name));
    }
    var found := Variant.Retrieve2DArray(ds.value, name);
    if found.Err? {
      return Err(VariantFailure(found.error));
    }
    r := ShapeRows(found.value, rows, cols, leaf.scalarType, config, strictLen, codec);
  }

  // ---------------------------------------------------------------------
  // A leaf

  /** `emit_bytes`: the size keys choose the emitter. */
  function Emit(leaf: LeafEntry, ds: Option<DataSheet>, config: BuildConfig, codec: FloatCodec): (r: Result<seq<byte>, LayoutError>)
    ensures Resolve(leaf.sizeKeys).Err? ==> r == Err(Resolve(leaf.sizeKeys).error)
    ensures Resolve(leaf.sizeKeys) == Ok((None, false)) ==> r == EmitSingle(leaf, ds, config, codec)
    ensures Resolve(leaf.sizeKeys).Ok? && Resolve(leaf.sizeKeys).value.0.Some? ==>
      var (size, strictLen) := Resolve(leaf.sizeKeys).value;
      && (size.value.OneD? ==> r == Emit1D(leaf, ds, size.value.size, config, strictLen, codec))
      && (size.value.TwoD? ==> r == Emit2D(leaf, ds, size.value.rows, size.value.cols, config, strictLen, codec))
  {
    var (size, strictLen) :- Resolve(leaf.sizeKeys);
    match size
    case None => EmitSingle(leaf, ds, config, codec)
    case Some(OneD(n)) => Emit1D(leaf, ds, n, config, strictLen, codec)
    case Some(TwoD(rows, cols)) => Emit2D(leaf, ds, rows, cols, config, strictLen, codec)
  }

  /** What a leaf emits is a whole number of elements of its type: one, the
      declared count, or the declared rows times columns. */
  lemma EmitIsWholeElements(leaf: LeafEntry, ds: Option<DataSheet>, config: BuildConfig, codec: FloatCodec, bytes: seq<byte>)
    requires Emit(leaf, ds, config, codec) == Ok(bytes)
    ensures |bytes| % leaf.Alignment() == 0
  {
    var w := leaf.Alignment();
    var size := Resolve(leaf.sizeKeys).value.0;
    if size.None? {
      DivUnique(|bytes|, w, 1, 0);
    } else if size.value.OneD? {
      DivUnique(|bytes|, w, size.value.size, 0);
    } else {
      var k := size.value.rows * size.value.cols;
      assert |bytes| == k * w;
      DivUnique(|bytes|, w, k, 0);
    }
  }

  /** The method form of `emit_bytes`, dispatching to the loop forms. */
  method EmitBytes(leaf: LeafEntry, ds: Option<DataSheet>, config: BuildConfig, codec: FloatCodec)
    returns (r: Result<seq<byte>, LayoutError>)
    ensures r == Emit(leaf, ds, config, codec)
  {
    var resolved := Resolve(leaf.sizeKeys);
    if resolved.Err? {
      return Err(resolved.error);
    }
    var (size, strictLen) := resolved.value;
    match size {
      case None => r := EmitSingle(leaf, ds, config, codec);
      case Some(OneD(n)) => r := EmitBytes1D(leaf, ds, n, config, strictLen, codec);
      case Some(TwoD(rows, cols)) => r := EmitBytes2D(leaf, ds, rows, cols, config, strictLen, codec);
    }
  }
}
