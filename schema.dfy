/** The layout schema of the older pipeline (src/schema.rs): the shape of a
    block (header and a tree of entries), the values a leaf can hold, and
    the conversion of a value to the bytes of a scalar type, strict or
    lossy, in either byte order.

    The later `layout/` files declare the same value, size and source types
    (src/layout/value.rs, src/layout/entry.rs, src/layout/header.rs); the
    model declares them once, here. */
module Schema {
  import opened Common
  import opened Primitives
  import opened LayoutSettings
  import opened Errors

  /** A value as the layout file or the data sheet gives it. `Float64` holds a
      finite double as the real number it denotes. */
  datatype DataValue = UInt64(u: u64) | Int64(i: i64) | Float64(x: real) | Str(s: string)
  {
    predicate IsInteger() { UInt64? || Int64? }

    /** The number an integer value denotes. */
    function IntValue(): int
      requires IsInteger()
    {
      if UInt64? then u else i
    }
  }

  datatype ValueSource = Single(value: DataValue) | Array(values: seq<DataValue>)

  /** A leaf's data: a name looked up in the data sheet, or a literal. */
  datatype EntrySource = Name(name: string) | Value(literal: ValueSource)

  /** A declared element count, or rows and columns. */
  datatype SizeSource = OneD(size: u64) | TwoD(rows: u64, cols: u64)

  datatype LeafEntry = LeafEntry(scalarType: ScalarType, size: Option<SizeSource>, source: EntrySource)
  {
    /** `get_alignment`: a leaf is aligned to its scalar width. */
    function Alignment(): (r: nat)
      ensures r == scalarType.SizeBytes()
    {
      scalarType.SizeBytes()
    }
  }

  /** A leaf, or a branch of named entries in insertion order. */
  datatype Entry = Leaf(leaf: LeafEntry) | Branch(children: seq<(string, Entry)>)

  datatype CrcLocation = Keyword(keyword: string) | Address(address: u32)

  datatype Header = Header(startAddress: u32, length: u32, crcLocation: CrcLocation, padding: byte)

  /** `default_padding`: the padding byte of a header that names none. */
  const DEFAULT_PADDING: byte := 0xFF

  datatype Block = Block(header: Header, data: Entry)

  /** The older settings: byte order and CRC parameters (the CRC area is
      not used by the older pipeline). */
  datatype Settings = Settings(endianness: Endianness, crc: CrcData)

  // ---------------------------------------------------------------------
  // Integer targets

  /** `u64::MAX as f64` and `i64::MAX as f64`: the nearest doubles to the
      two maxima are 2^64 and 2^63. */
  const U64_MAX_AS_F64: real := 18446744073709551616.0
  const I64_MAX_AS_F64: real := 9223372036854775808.0

  /** The largest finite `f32`. */
  const F32_MAX: real := 340282346638528859811704183484516925440.0

  predicate IsIntegral(x: real) { x.Floor as real == x }

  /** `ensure_finite_integer_in_range` on a finite value: the failure, if
      any, for x against the bounds [min, max]. */
  function FloatCheck(x: real, min: real, max: real): (r: Option<ExportFailure>)
    ensures r == None <==> min <= x <= max && IsIntegral(x)
    ensures r == Some(OutOfRange) <==> x < min || x > max
  {
    if x < min || x > max then Some(OutOfRange)
    else if !IsIntegral(x) then Some(NotAnInteger)
    else None
  }

  /** The float branch of `to_u8` … `to_i64` with the upper bound `max` of
      the strict range check: the check, then `x as T`. */
  function FloatToInt(x: real, t: IntType, strict: bool, max: real): (r: Result<int, NvmError>)
    ensures r.Ok? ==> InRange(r.value, t)
    ensures r.Err? ==> r.error.DataValueExportFailed?
  {
    if strict && FloatCheck(x, MinValue(t) as real, max).Some? then
      Err(DataValueExportFailed(FloatCheck(x, MinValue(t) as real, max).value))
    else
      Ok(SaturatingCast(x, t))
  }

  /** `to_u8` … `to_i64`: the value of type t that v converts to. Under
      `strict` an integer outside the type's range, and a float that is not
      an integer inside it, are refused; otherwise integers are narrowed by
      two's-complement truncation and floats by a saturating cast. The
      strict float check uses the exact maximum of the type (see
      `ToIntAsWritten` for the bound the source compares against). */
  function ToInt(v: DataValue, t: IntType, strict: bool): (r: Result<int, NvmError>)
    ensures r.Ok? ==> InRange(r.value, t)
    ensures v.IsInteger() && strict ==> (r.Err? <==> !InRange(v.IntValue(), t))
    ensures v.UInt64? && r.Err? ==> r.error == DataValueExportFailed(TooLarge)
    ensures v.Int64? && r.Err? ==> r.error == DataValueExportFailed(OutOfRange)
    ensures r.Err? ==> r.error.DataValueExportFailed?
  {
    match v
    case UInt64(n) =>
      if strict && n > MaxValue(t) then Err(DataValueExportFailed(TooLarge)) else Ok(Cast(n, t))
    case Int64(n) =>
      if strict && !InRange(n, t) then Err(DataValueExportFailed(OutOfRange)) else Ok(Cast(n, t))
    case Float64(x) => FloatToInt(x, t, strict, MaxValue(t) as real)
    case Str(_) => Err(DataValueExportFailed(StringToScalar))
  }

  /** `to_u8` … `to_i64` as written: the strict float check compares
      against `T::MAX as f64`, which for `u64` and `i64` is one above the
      maximum. */
  function ToIntAsWritten(v: DataValue, t: IntType, strict: bool): (r: Result<int, NvmError>)
    ensures r.Ok? ==> InRange(r.value, t)
  {
    match v
    case Float64(x) =>
      var max := if t == U64 then U64_MAX_AS_F64 else if t == I64 then I64_MAX_AS_F64 else MaxValue(t) as real;
      FloatToInt(x, t, strict, max)
    case _ => ToInt(v, t, strict)
  }

  /** Lossy narrowing of an integer keeps its low bytes: the result is the
      value of type t congruent to the source modulo 2^width, so it has the
      same little-endian image. */
  lemma LossyIntegerKeepsLowBits(v: DataValue, t: IntType)
    requires v.IsInteger()
    ensures ToInt(v, t, false).Ok?
    ensures InRange(ToInt(v, t, false).value, t)
    ensures (v.IntValue() - ToInt(v, t, false).value) % Modulus(t) == 0
    ensures LeBytes(ToInt(v, t, false).value, t.SizeBytes()) == LeBytes(v.IntValue(), t.SizeBytes())
  {
    CastKeepsLowBits(v.IntValue(), t);
  }

  lemma CastKeepsLowBits(n: int, t: IntType)
    ensures LeBytes(Cast(n, t), t.SizeBytes()) == LeBytes(n, t.SizeBytes())
  {
    CastKeepsLowBytes(n, t);
  }

  /** An unsigned value to `u64` and a signed one to `i64` never fail and change nothing. */
  lemma SameWidthIsIdentity(v: DataValue, strict: bool)
    ensures v.UInt64? ==> ToInt(v, U64, strict) == Ok(v.u)
    ensures v.Int64? ==> ToInt(v, I64, strict) == Ok(v.i)
  {
    if v.UInt64? {
      CastOfInRange(v.u, U64);
    } else if v.Int64? {
      CastOfInRange(v.i, I64);
    }
  }

  /** A strict conversion that succeeds keeps the numeric value, whatever
      the source variant. */
  lemma StrictConversionPreservesValue(v: DataValue, t: IntType)
    requires ToInt(v, t, true).Ok?
    ensures v.IsInteger() ==> ToInt(v, t, true).value == v.IntValue()
    ensures v.Float64? ==> ToInt(v, t, true).value as real == v.x
  {
    if v.IsInteger() {
      CastOfInRange(v.IntValue(), t);
    } else if v.Float64? {
      var min := MinValue(t) as real;
      var max := MaxValue(t) as real;
      assert FloatToInt(v.x, t, true, max).Ok?;
      assert FloatCheck(v.x, min, max).None?;
      TruncateIntegral(v.x);
      assert SaturatingCast(v.x, t) == v.x.Floor;
    }
  }

  /** Truncating a float that holds an integer gives that integer. */
  lemma TruncateIntegral(x: real)
    requires IsIntegral(x)
    ensures TruncateTowardZero(x) == x.Floor
  {
  }

  /** As written, the strict `u64` check lets 2^64 through, and the cast
      then saturates it to `u64::MAX`; likewise 2^63 for `i64`. */
  lemma StrictFloatBoundLetsOverflowThrough()
    ensures ToIntAsWritten(Float64(18446744073709551616.0), U64, true) == Ok(0xFFFF_FFFF_FFFF_FFFF)
    ensures ToIntAsWritten(Float64(9223372036854775808.0), I64, true) == Ok(0x7FFF_FFFF_FFFF_FFFF)
    ensures ToInt(Float64(18446744073709551616.0), U64, true).Err?
    ensures ToInt(Float64(9223372036854775808.0), I64, true).Err?
  {
    var x := 18446744073709551616.0;
    assert x.Floor == 18446744073709551616;
    var y := 9223372036854775808.0;
    assert y.Floor == 9223372036854775808;
  }

  // ---------------------------------------------------------------------
  // Float targets

  /** `to_f32` (single) and `to_f64`: the real number that `as f32` or
      `as f64` then rounds, or the failure. For an integer source the
      comparison with `f32::MAX` is made on the exact value: rounding to
      `f64` first cannot move a value across that bound. */
  function ToFloat(v: DataValue, single: bool, strict: bool): (r: Result<real, NvmError>)
    ensures r.Ok? <==> !v.Str? && !(single && strict && v.Float64? && (v.x < -F32_MAX || v.x > F32_MAX))
    ensures r.Ok? && v.IsInteger() ==> r.value == v.IntValue() as real
    ensures r.Ok? && v.Float64? ==> r.value == v.x
    ensures r.Err? ==> r.error.DataValueExportFailed?
  {
    match v
    case UInt64(n) =>
      if single && strict && n as real > F32_MAX then Err(DataValueExportFailed(TooLarge))
      else Ok(n as real)
    case Int64(n) =>
      // `strict && below || above` groups as `(strict && below) || above`
      if single && ((strict && (n as real) < -F32_MAX) || (n as real) > F32_MAX) then
        Err(DataValueExportFailed(OutOfRange))
      else Ok(n as real)
    case Float64(x) =>
      if single && strict && (x < -F32_MAX || x > F32_MAX) then Err(DataValueExportFailed(OutOfRange))
      else Ok(x)
    case Str(_) => Err(DataValueExportFailed(StringToScalar))
  }

  /** No integer is out of range for `f32`, so the range check of `to_f32`
      never fires for an integer source, strict or not, and the operator
      grouping in its signed branch changes nothing. */
  lemma IntegerToFloatNeverFails(v: DataValue, single: bool, strict: bool)
    requires v.IsInteger()
    ensures ToFloat(v, single, strict) == Ok(v.IntValue() as real)
  {
    assert -F32_MAX < v.IntValue() as real < F32_MAX;
  }

  // ---------------------------------------------------------------------
  // Bytes

  /** `to_bytes`: the value converted to the scalar type and laid out in
      the given byte order; a float is rounded by the codec. */
  function ToBytes(v: DataValue, st: ScalarType, e: Endianness, strict: bool, codec: FloatCodec): (r: Result<seq<byte>, NvmError>)
    ensures r.Ok? ==> |r.value| == st.SizeBytes()
    ensures v.Str? ==> r == Err(DataValueExportFailed(StringToScalar))
    ensures r.Err? ==> r.error.DataValueExportFailed?
  {
    if st.IsInteger() then
      var n :- ToInt(v, st, strict);
      Ok(ToEndianBytes(IntValue(st, n), e))
    else if st == F32 then
      var x :- ToFloat(v, true, strict);
      Ok(ToEndianBytes(F32Bits(codec.single(x)), e))
    else
      var x :- ToFloat(v, false, strict);
      Ok(ToEndianBytes(F64Bits(codec.double(x)), e))
  }

  /** The two byte orders succeed or fail together; big-endian output is
      the little-endian output reversed. */
  lemma ToBytesBigIsReversedLittle(v: DataValue, st: ScalarType, strict: bool, codec: FloatCodec)
    ensures ToBytes(v, st, Big, strict, codec).Ok? <==> ToBytes(v, st, Little, strict, codec).Ok?
    ensures ToBytes(v, st, Big, strict, codec).Ok? ==>
      ToBytes(v, st, Big, strict, codec).value == Reverse(ToBytes(v, st, Little, strict, codec).value)
  {
    if st.IsInteger() {
      if ToInt(v, st, strict).Ok? {
        BigIsReversedLittle(IntValue(st, ToInt(v, st, strict).value));
      }
    } else if st == F32 {
      if ToFloat(v, true, strict).Ok? {
        BigIsReversedLittle(F32Bits(codec.single(ToFloat(v, true, strict).value)));
      }
    } else {
      if ToFloat(v, false, strict).Ok? {
        BigIsReversedLittle(F64Bits(codec.double(ToFloat(v, false, strict).value)));
      }
    }
  }

  /** `string_to_bytes`: the UTF-8 bytes of a string value; any other value
      is refused. */
  function StringToBytes(v: DataValue): (r: Result<seq<byte>, NvmError>)
    ensures r.Ok? <==> v.Str?
    ensures r.Ok? ==> r.value == Utf8(v.s)
    ensures r.Err? ==> r.error == DataValueExportFailed(StringExpected)
  {
    match v
    case Str(s) => Ok(Utf8(s))
    case _ => Err(DataValueExportFailed(StringExpected))
  }

  // ---------------------------------------------------------------------
  // Lossy `TryFrom`

  /** `T::try_from(&DataValue)`: a plain `as` cast of the number, for every
      scalar type; only a string fails. */
  function LossyCast(v: DataValue, st: ScalarType, codec: FloatCodec): (r: Result<Primitive, NvmError>)
    ensures r.Ok? <==> !v.Str?
    ensures r.Ok? ==> r.value.Valid() && r.value.Width() == st.SizeBytes()
  {
    match v
    case Str(_) => Err(DataValueExportFailed(StringToScalar))
    case Float64(x) =>
      if st.IsInteger() then Ok(IntValue(st, SaturatingCast(x, st)))
      else if st == F32 then Ok(F32Bits(codec.single(x)))
      else Ok(F64Bits(codec.double(x)))
    case _ =>
      if st.IsInteger() then Ok(IntValue(st, Cast(v.IntValue(), st)))
      else if st == F32 then Ok(F32Bits(codec.single(v.IntValue() as real)))
      else Ok(F64Bits(codec.double(v.IntValue() as real)))
  }

  /** The non-strict `to_bytes` and the lossy `TryFrom` agree: converting
      without `strict` and laying out is laying out the `as` cast. */
  lemma NonStrictIsLossyCast(v: DataValue, st: ScalarType, e: Endianness, codec: FloatCodec)
    requires !v.Str?
    ensures ToBytes(v, st, e, false, codec) == Ok(ToEndianBytes(LossyCast(v, st, codec).value, e))
  {
    if v.IsInteger() && !st.IsInteger() {
      IntegerToFloatNeverFails(v, st == F32, false);
    }
  }
}
