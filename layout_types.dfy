/** The typed values of the first layout reader (src/layout/types.rs and
    the error enum of src/layout/mod.rs): a value read from a TOML cell
    with a type name, the memory unit sizes, and type specifications.

    A typed value (`DataValue::U8(..)` … `F64(..)`) is a `Primitive`, and
    its `to_bytes` is `ToEndianBytes`; the same holds for src/types.rs. */
module LayoutTypes {
  import opened Common
  import opened Primitives
  import opened LayoutSettings
  import Toml

  datatype CrcLocation = Start | End | Address(address: u32)

  datatype LayoutError =
    | FailedToReadFile
    | FailedToParseFile
    | SettingsNotFound
    | InvalidSettings
    | BlockNotFound
    | NoPadding
    | InvalidHeader
    | InvalidData
    | InvalidCell
    | InvalidUnitSize
    | BadDataValueExtraction

  /** `parse_uint`: a non-negative integer. */
  function ParseUint(v: Toml.Value): (r: Result<u64, LayoutError>)
    ensures r.Ok? <==> v.Integer? && v.n >= 0
    ensures r.Ok? ==> r.value == v.n
    ensures r.Err? ==> r.error == InvalidCell
  {
    match v
    case Integer(n) => if n >= 0 then Ok(n) else Err(InvalidCell)
    case _ => Err(InvalidCell)
  }

  /** `parse_int`: any integer. */
  function ParseInt(v: Toml.Value): (r: Result<i64, LayoutError>)
    ensures r.Ok? <==> v.Integer?
    ensures r.Ok? ==> r.value == v.n
    ensures r.Err? ==> r.error == InvalidCell
  {
    match v
    case Integer(n) => Ok(n)
    case _ => Err(InvalidCell)
  }

  /** `parse_float`: a float, or an integer rounded to the nearest double. */
  function ParseFloat(v: Toml.Value, codec: FloatCodec): (r: Result<real, LayoutError>)
    ensures r.Ok? <==> v.Float? || v.Integer?
    ensures v.Float? ==> r == Ok(v.x)
    ensures v.Integer? ==> r == Ok(codec.nearestDouble(v.n as real))
    ensures r.Err? ==> r.error == InvalidCell
  {
    match v
    case Float(x) => Ok(x)
    case Integer(n) => Ok(codec.nearestDouble(n as real))
    case _ => Err(InvalidCell)
  }

  /** `DataValue::from_toml_cell`: the cell read as the named type. An
      unsigned type needs a non-negative integer, a signed type any
      integer; both are then narrowed with `as`. */
  function FromTomlCell(typeName: string, v: Toml.Value, codec: FloatCodec): (r: Result<Primitive, LayoutError>)
    ensures ParseTypeName(typeName).None? ==> r == Err(InvalidCell)
    ensures r.Ok? ==> ParseTypeName(typeName).Some? && r.value.Valid()
    ensures r.Ok? ==> r.value.Width() == ParseTypeName(typeName).value.SizeBytes()
    ensures ParseTypeName(typeName).Some? && ParseTypeName(typeName).value.IsInteger() ==>
      var t: IntType := ParseTypeName(typeName).value;
      && (r.Ok? <==> v.Integer? && (Signed(t) || v.n >= 0))
      && (r.Ok? ==> r.value == IntValue(t, Cast(v.n, t)))
  {
    match ParseTypeName(typeName)
    case None => Err(InvalidCell)
    case Some(t) =>
      if t == F32 then
        var x :- ParseFloat(v, codec);
        Ok(F32Bits(codec.single(x)))
      else if t == F64 then
        var x :- ParseFloat(v, codec);
        Ok(F64Bits(codec.double(x)))
      else if Signed(t) then
        var n :- ParseInt(v);
        Ok(IntValue(t, Cast(n, t)))
      else
        var n :- ParseUint(v);
        Ok(IntValue(t, Cast(n, t)))
  }

  /** `0x12345678` as a `u32` is `78 56 34 12` little-endian and
      `12 34 56 78` big-endian; a `u8` is the same byte in both orders. */
  lemma ToBytesExamples()
    ensures ToEndianBytes(IntValue(U32, 0x1234_5678), Little) == [0x78, 0x56, 0x34, 0x12]
    ensures ToEndianBytes(IntValue(U32, 0x1234_5678), Big) == [0x12, 0x34, 0x56, 0x78]
    ensures ToEndianBytes(IntValue(U8, 0xFF), Little) == [0xFF] == ToEndianBytes(IntValue(U8, 0xFF), Big)
  {
    var le := LeBytes(0x1234_5678, 4);
    assert le == [0x78, 0x56, 0x34, 0x12] by {
      assert LeBytes(0x12, 1) == [0x12];
      assert LeBytes(0x1234, 2) == [0x34, 0x12];
      assert LeBytes(0x12_3456, 3) == [0x56, 0x34, 0x12];
    }
    assert Reverse(le) == [0x12, 0x34, 0x56, 0x78];
    BigIsReversedLittle(IntValue(U8, 0xFF));
  }

  // ---------------------------------------------------------------------
  // Memory unit sizes

  datatype MemoryUnitSize = Bytes1 | Bytes2 | Bytes4 | Bytes8

  /** `MemoryUnitSize::from_bytes` */
  function FromBytes(bytes: nat): (r: Result<MemoryUnitSize, LayoutError>)
    ensures r.Ok? <==> bytes in {1, 2, 4, 8}
    ensures r.Ok? ==> AsBytes(r.value) == bytes
    ensures r.Err? ==> r.error == InvalidUnitSize
  {
    if bytes == 1 then Ok(Bytes1)
    else if bytes == 2 then Ok(Bytes2)
    else if bytes == 4 then Ok(Bytes4)
    else if bytes == 8 then Ok(Bytes8)
    else Err(InvalidUnitSize)
  }

  /** `as_bytes` */
  function AsBytes(u: MemoryUnitSize): (n: nat)
    ensures n in {1, 2, 4, 8}
  {
    match u
    case Bytes1 => 1
    case Bytes2 => 2
    case Bytes4 => 4
    case Bytes8 => 8
  }

  /** `from_bytes` and `as_bytes` are inverse. */
  lemma FromBytesOfAsBytes(u: MemoryUnitSize)
    ensures FromBytes(AsBytes(u)) == Ok(u)
  {
    match u
    case Bytes1 =>
    case Bytes2 =>
    case Bytes4 =>
    case Bytes8 =>
  }

  /** `align_size`: `size` rounded up to a whole number of units. */
  function AlignSize(u: MemoryUnitSize, size: nat): (r: nat)
    ensures r % AsBytes(u) == 0
    ensures size <= r < size + AsBytes(u)
  {
    var unit := AsBytes(u);
    var q := (size + unit - 1) / unit;
    DivUnique(q * unit, unit, q, 0);
    q * unit
  }

  /** No smaller multiple of the unit holds `size`: the result is the least
      one. */
  lemma AlignSizeIsLeast(u: MemoryUnitSize, size: nat, m: nat)
    requires m % AsBytes(u) == 0 && size <= m
    ensures AlignSize(u, size) <= m
  {
    var unit := AsBytes(u);
    var r := AlignSize(u, size);
    if m < r {
      var a := m / unit;
      var b := r / unit;
      assert m == unit * a;
      assert r == unit * b;
      assert unit * (b - a) == r - m;
      MulAtLeast(unit, b - a);
    }
  }

  // ---------------------------------------------------------------------
  // Type specifications

  datatype TypeSpec = Simple(typeName: string) | ArrayOf(count: nat, elementTypes: seq<string>)

  /** `TypeSpec::from_value`: a string names a simple type; arrays are not
      supported yet. */
  function TypeSpecFromValue(v: Toml.Value): (r: Result<TypeSpec, LayoutError>)
    ensures r.Ok? <==> v.String?
    ensures r.Ok? ==> r.value == Simple(v.s)
    ensures r.Err? ==> r.error == InvalidCell
  {
    match v
    case String(s) => Ok(Simple(s))
    case _ => Err(InvalidCell)
  }

  /** `extract_datavalues`: the entry's `value` read as the simple type. */
  function ExtractDatavalues(spec: TypeSpec, entry: Toml.Value, codec: FloatCodec): (r: Result<seq<Primitive>, LayoutError>)
    ensures r.Ok? ==> spec.Simple? && |r.value| == 1
    ensures spec.Simple? && Toml.GetIn(entry, "value").None? ==> r == Err(InvalidCell)
    ensures r.Ok? ==> FromTomlCell(spec.typeName, Toml.GetIn(entry, "value").value, codec) == Ok(r.value[0])
  {
    match spec
    case Simple(t) =>
      (match Toml.GetIn(entry, "value")
       case None => Err(InvalidCell)
       case Some(v) =>
         var dv :- FromTomlCell(t, v, codec);
         Ok([dv]))
    case ArrayOf(_, _) => Err(InvalidCell)
  }
}
