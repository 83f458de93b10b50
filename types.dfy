/** Classification and typed export of configuration values in the older
    pipeline (src/types.rs). The typed value `DataValue::U8(..)` …
    `F64(..)` of that file is a `Primitive`, and its `to_bytes` is
    `ToEndianBytes`; the accessors are those of `toml::Value`. */
module ConfigValues {
  import opened Common
  import opened Primitives
  import opened LayoutSettings
  import opened Errors
  import Toml
  import LayoutTypes

  /** Where an entry's data comes from: a literal value, or a name looked
      up in the data sheet. */
  datatype EntrySource = Value(value: Toml.Value) | Name(name: string)

  /** What `classify_entry` finds in a table. */
  datatype EntryType =
    | SingleEntry(typeStr: string, source: EntrySource)
    | ArrayEntry(typeStr: string, source: EntrySource, rows: i64, cols: i64)
    | StringEntry(typeStr: string, source: EntrySource, length: i64)
    | NestedTable(entries: seq<(string, Toml.Value)>)

  // ---------------------------------------------------------------------
  // Accessors

  /** `as_integer` */
  function AsInteger(v: Toml.Value): (r: Option<i64>)
    ensures r.Some? <==> v.Integer?
    ensures r.Some? ==> r.value == v.n
  {
    match v
    case Integer(n) => Some(n)
    case _ => None
  }

  /** `as_float`: a float, or an integer rounded to the nearest double. */
  function AsFloat(v: Toml.Value, codec: FloatCodec): (r: Option<real>)
    ensures r.Some? <==> v.Float? || v.Integer?
    ensures v.Float? ==> r == Some(v.x)
  {
    match v
    case Float(x) => Some(x)
    case Integer(n) => Some(codec.nearestDouble(n as real))
    case _ => None
  }

  /** `as_string` */
  function AsString(v: Toml.Value): (r: Option<string>)
    ensures r.Some? <==> v.String?
    ensures r.Some? ==> r.value == v.s
  {
    match v
    case String(s) => Some(s)
    case _ => None
  }

  /** `as_bool` */
  function AsBool(v: Toml.Value): (r: Option<bool>)
    ensures r.Some? <==> v.Boolean?
    ensures r.Some? ==> r.value == v.b
  {
    match v
    case Boolean(b) => Some(b)
    case _ => None
  }

  /** `as_table` */
  function AsTable(v: Toml.Value): (r: Option<seq<(string, Toml.Value)>>)
    ensures r.Some? <==> v.Table?
    ensures r.Some? ==> r.value == v.entries
  {
    match v
    case Table(entries) => Some(entries)
    case _ => None
  }

  /** `as_size_tuple`: a list of one or two integers, read as rows and
      columns; a single number has zero columns. */
  function AsSizeTuple(v: Toml.Value): (r: Result<(i64, i64), NvmError>)
    ensures r.Ok? <==>
      && v.Array? && 1 <= |v.items| <= 2
      && v.items[0].Integer?
      && (|v.items| == 2 ==> v.items[1].Integer?)
    ensures r.Ok? ==> r.value.0 == v.items[0].n
    ensures r.Ok? ==> r.value.1 == if |v.items| == 2 then v.items[1].n else 0
    ensures r.Err? ==> r.error.FailedToExtract?
  {
    match v
    case Array(items) =>
      if 1 <= |items| <= 2 then
        var rows :- (match AsInteger(items[0])
                     case Some(n) => Ok(n)
                     case None => Err(FailedToExtract("Non-integer number of rows found.")));
        var cols :- (if |items| == 2 then
                       match AsInteger(items[1])
                       case Some(n) => Ok(n)
                       case None => Err(FailedToExtract("Non-integer number of columns found."))
                     else Ok(0));
        Ok((rows, cols))
      else Err(FailedToExtract("Invalid size array found."))
    case _ => Err(FailedToExtract("Invalid size array found."))
  }

  // ---------------------------------------------------------------------
  // Classification

  const NOT_A_TABLE := "couldn't retrieve table where one was expected."
  const NON_STRING_TYPE := "Non-string type found."
  const NON_STRING_NAME := "Non-string name found."
  const NEITHER_OR_BOTH := "Found neither/both value and name in the same entry."

  /** The optional `size` of an entry, read as a size tuple. */
  function SizeOf(entries: seq<(string, Toml.Value)>): Result<Option<(i64, i64)>, NvmError>
  {
    match Toml.Get(entries, "size")
    case None => Ok(None)
    case Some(size) =>
      var t :- AsSizeTuple(size);
      Ok(Some(t))
  }

  /** The source of a typed entry: exactly one of `value` and `name`. */
  function SourceOf(entries: seq<(string, Toml.Value)>): (r: Result<EntrySource, NvmError>)
    ensures r.Ok? ==> Toml.ContainsKey(entries, "value") != Toml.ContainsKey(entries, "name")
    ensures r.Ok? && r.value.Value? ==> Toml.Get(entries, "value") == Some(r.value.value)
    ensures r.Ok? && r.value.Name? ==> Toml.Get(entries, "name") == Some(Toml.String(r.value.name))
    ensures Toml.ContainsKey(entries, "value") == Toml.ContainsKey(entries, "name") ==>
      r == Err(RecursionFailed(NEITHER_OR_BOTH))
  {
    match (Toml.Get(entries, "value"), Toml.Get(entries, "name"))
    case (Some(value), None) => Ok(Value(value))
    case (None, Some(name)) =>
      (match AsString(name)
       case Some(s) => Ok(Name(s))
       case None => Err(FailedToExtract(NON_STRING_NAME)))
    case _ => Err(RecursionFailed(NEITHER_OR_BOTH))
  }

  /** `classify_entry`: a table without `type` is a nested table; with a
      string `type` it is a data entry whose shape follows its `size`: none
      for a single value, `[n]` (no columns) for a string of n, and any
      other size for an array. */
  function ClassifyEntry(v: Toml.Value): (r: Result<EntryType, NvmError>)
    ensures !v.Table? ==> r == Err(RecursionFailed(NOT_A_TABLE))
    ensures v.Table? && !Toml.ContainsKey(v.entries, "type") ==> r == Ok(NestedTable(v.entries))
    ensures v.Table? && Toml.ContainsKey(v.entries, "type") && !Toml.Get(v.entries, "type").value.String? ==>
      r == Err(FailedToExtract(NON_STRING_TYPE))
    ensures r.Ok? && r.value.NestedTable? ==> v == Toml.Table(r.value.entries)
    ensures r.Ok? && !r.value.NestedTable? ==>
      && v.Table?
      && Toml.Get(v.entries, "type") == Some(Toml.String(r.value.typeStr))
      && SourceOf(v.entries) == Ok(r.value.source)
    ensures r.Ok? && r.value.SingleEntry? ==> !Toml.ContainsKey(v.entries, "size")
    ensures r.Ok? && r.value.StringEntry? ==> SizeOf(v.entries) == Ok(Some((r.value.length, 0)))
    ensures r.Ok? && r.value.ArrayEntry? ==>
      SizeOf(v.entries) == Ok(Some((r.value.rows, r.value.cols))) && r.value.cols != 0
    ensures
      (&& v.Table? && Toml.Get(v.entries, "type").Some? && Toml.Get(v.entries, "type").value.String?
       && SizeOf(v.entries).Ok? && SourceOf(v.entries).Ok?)
      ==> r.Ok? && !r.value.NestedTable?
  {
    match v
    case Table(entries) =>
      (match Toml.Get(entries, "type")
       case None => Ok(NestedTable(entries))
       case Some(typeValue) =>
         var typeStr :- (match AsString(typeValue)
                         case Some(s) => Ok(s)
                         case None => Err(FailedToExtract(NON_STRING_TYPE)));
         var size :- SizeOf(entries);
         var source :- SourceOf(entries);
         match size
         case Some((rows, 0)) => Ok(StringEntry(typeStr, source, rows))
         case Some((rows, cols)) => Ok(ArrayEntry(typeStr, source, rows, cols))
         case None => Ok(SingleEntry(typeStr, source)))
    case _ => Err(RecursionFailed(NOT_A_TABLE))
  }

  // ---------------------------------------------------------------------
  // Export

  /** `export_datavalue`: the value read as the named type. Integer types
      take an integer and narrow it with `as`; float types take a float or
      an integer. */
  function ExportDatavalue(v: Toml.Value, typeStr: string, codec: FloatCodec): (r: Result<Primitive, NvmError>)
    ensures ParseTypeName(typeStr).None? ==> r == Err(DataValueExportFailed(UnsupportedType(typeStr)))
    ensures r.Ok? ==> ParseTypeName(typeStr).Some? && r.value.Valid()
    ensures r.Ok? ==> r.value.Width() == ParseTypeName(typeStr).value.SizeBytes()
    ensures ParseTypeName(typeStr).Some? && ParseTypeName(typeStr).value.IsInteger() ==>
      && (r.Ok? <==> v.Integer?)
      && (r.Ok? ==> r.value == IntValue(ParseTypeName(typeStr).value, Cast(v.n, ParseTypeName(typeStr).value)))
    ensures ParseTypeName(typeStr).Some? && !ParseTypeName(typeStr).value.IsInteger() ==>
      (r.Ok? <==> v.Float? || v.Integer?)
    ensures ParseTypeName(typeStr).Some? && r.Err? ==> r.error == DataValueExportFailed(NotConvertibleTo(typeStr))
  {
    match ParseTypeName(typeStr)
    case None => Err(DataValueExportFailed(UnsupportedType(typeStr)))
    case Some(t) =>
      if t.IsInteger() then
        (match AsInteger(v)
         case Some(n) => Ok(IntValue(t, Cast(n, t)))
         case None => Err(DataValueExportFailed(NotConvertibleTo(typeStr))))
      else
        (match AsFloat(v, codec)
         case Some(x) => Ok(if t == F32 then F32Bits(codec.single(x)) else F64Bits(codec.double(x)))
         case None => Err(DataValueExportFailed(NotConvertibleTo(typeStr))))
  }

  /** The bytes of an exported integer are the low bytes of the number:
      `as` keeps exactly what fits in the type's width. */
  lemma ExportedIntegerKeepsLowBytes(n: i64, t: IntType, codec: FloatCodec)
    ensures ExportDatavalue(Toml.Integer(n), TypeName(t), codec).Ok?
    ensures ToEndianBytes(ExportDatavalue(Toml.Integer(n), TypeName(t), codec).value, Little) == LeBytes(n, t.SizeBytes())
  {
    var st: ScalarType := t;
    assert ParseTypeName(TypeName(st)) == Some(st);
    CastKeepsLowBytes(n, t);
  }

  /** An `i8` is written as its two's-complement byte, the same in either
      byte order. */
  lemma I8IsTwosComplementByte(v: int, e: Endianness)
    requires InRange(v, I8)
    ensures ToEndianBytes(IntValue(I8, v), e) == [Cast(v, U8) as byte]
  {
    BigIsReversedLittle(IntValue(I8, v));
    var b := ToEndianBytes(IntValue(I8, v), Little);
    assert b == [(v % 256) as byte];
    assert (v - v % 256) % Modulus(U8) == 0 by {
      DivUnique(v - v % 256, 256, v / 256, 0);
    }
    CastUnique(v, U8, v % 256);
  }

  /** The two readers of a typed integer (this one and the first layout
      reader's `from_toml_cell`) agree wherever the latter accepts the
      value; it refuses only negative values for unsigned types, which
      `export_datavalue` wraps. */
  lemma ExportAgreesWithFromTomlCell(v: Toml.Value, t: IntType, codec: FloatCodec)
    ensures LayoutTypes.FromTomlCell(TypeName(t), v, codec).Ok? ==>
      ExportDatavalue(v, TypeName(t), codec) == Ok(LayoutTypes.FromTomlCell(TypeName(t), v, codec).value)
    ensures ExportDatavalue(v, TypeName(t), codec).Ok? && LayoutTypes.FromTomlCell(TypeName(t), v, codec).Err? ==>
      !Signed(t) && v.Integer? && v.n < 0
  {
    var st: ScalarType := t;
    assert ParseTypeName(TypeName(st)) == Some(st);
  }
}
