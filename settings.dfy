/** The `[settings]` table of a layout file (src/layout/settings.rs): byte
    order, address offset, output switches and CRC parameters, with the
    defaults applied to keys the file leaves out, and the `EndianBytes`
    serialisation of primitive values. */
module LayoutSettings {
  import opened Common
  import opened Primitives

  datatype Endianness = Little | Big

  /** What the CRC covers: the payload only, or the whole block. */
  datatype CrcArea = Data | Block

  datatype CrcData = CrcData(
    polynomial: bv32,
    start: bv32,
    xorOut: bv32,
    refIn: bool,
    refOut: bool,
    area: CrcArea)

  datatype Settings = Settings(
    endianness: Endianness,
    virtualOffset: u32,
    byteSwap: bool,
    padToEnd: bool,
    crc: CrcData)

  /** The settings table as written: the keys with a serde default may be
      absent. */
  datatype SettingsTable = SettingsTable(
    endianness: Endianness,
    virtualOffset: Option<u32>,
    byteSwap: Option<bool>,
    padToEnd: Option<bool>,
    crc: CrcData)

  /** Deserialisation: an absent `virtual_offset` is 0, an absent `byte_swap`
      or `pad_to_end` is false, and a present key is taken as written. */
  function FromTable(t: SettingsTable): (s: Settings)
    ensures s.endianness == t.endianness && s.crc == t.crc
    ensures t.virtualOffset.None? ==> s.virtualOffset == 0
    ensures t.byteSwap.None? ==> !s.byteSwap
    ensures t.padToEnd.None? ==> !s.padToEnd
    ensures t.virtualOffset.Some? ==> s.virtualOffset == t.virtualOffset.value
    ensures t.byteSwap.Some? ==> s.byteSwap == t.byteSwap.value
    ensures t.padToEnd.Some? ==> s.padToEnd == t.padToEnd.value
  {
    Settings(
      t.endianness,
      match t.virtualOffset case Some(o) => o case None => DefaultOffset(),
      match t.byteSwap case Some(b) => b case None => false,
      match t.padToEnd case Some(b) => b case None => false,
      t.crc)
  }

  /** `default_offset` */
  function DefaultOffset(): u32 { 0 }

  /** A value of one of the primitive types that implement `EndianBytes`:
      an integer of type t, or the IEEE-754 bit pattern of an `f32` or
      `f64`. */
  datatype Primitive = IntValue(t: IntType, v: int) | F32Bits(bits32: bv32) | F64Bits(bits64: bv64)
  {
    predicate Valid() { IntValue? ==> InRange(v, t) }

    /** `size_of` the type. */
    function Width(): (r: nat)
      ensures r in {1, 2, 4, 8}
    {
      match this
      case IntValue(t, _) => t.SizeBytes()
      case F32Bits(_) => 4
      case F64Bits(_) => 8
    }

    /** The bits of the value read as an integer: what `to_le_bytes`
        lays out. */
    function Bits(): int
    {
      match this
      case IntValue(_, v) => v
      case F32Bits(b) => b as int
      case F64Bits(b) => b as int
    }
  }

  /** `to_endian_bytes`: `to_le_bytes` for little endian, `to_be_bytes` for
      big endian. */
  function ToEndianBytes(p: Primitive, e: Endianness): (r: seq<byte>)
    ensures |r| == p.Width()
  {
    match e
    case Little => LeBytes(p.Bits(), p.Width())
    case Big => Reverse(LeBytes(p.Bits(), p.Width()))
  }

  /** Big-endian output is little-endian output reversed, and a one-byte
      value is laid out the same way in both orders. */
  lemma BigIsReversedLittle(p: Primitive)
    ensures ToEndianBytes(p, Big) == Reverse(ToEndianBytes(p, Little))
    ensures p.Width() == 1 ==> ToEndianBytes(p, Big) == ToEndianBytes(p, Little)
  {
    if p.Width() == 1 {
      var le := ToEndianBytes(p, Little);
      assert Reverse(le)[0] == le[0];
    }
  }

  /** Little-endian byte i of an integer is `(v >> 8i) & 0xFF`; big-endian
      byte i is little-endian byte `width - 1 - i`. */
  lemma EndianByteIsShift(p: Primitive, i: nat)
    requires i < p.Width()
    ensures ToEndianBytes(p, Little)[i] as int == (p.Bits() / Pow256(i)) % 256
    ensures ToEndianBytes(p, Big)[i] as int == (p.Bits() / Pow256(p.Width() - 1 - i)) % 256
  {
    LeByteIsShift(p.Bits(), p.Width(), i);
    LeByteIsShift(p.Bits(), p.Width(), p.Width() - 1 - i);
  }

  /** Reading the bytes back in the same order gives the value's bits: the
      unsigned value for an unsigned integer or a float, and the value
      itself once reinterpreted as the same signed type. */
  lemma ToEndianBytesRoundTrip(p: Primitive, e: Endianness)
    requires p.Valid()
    ensures var le := if e == Little then ToEndianBytes(p, e) else Reverse(ToEndianBytes(p, e));
      && FromLe(le) == p.Bits() % Pow256(p.Width())
      && (p.IntValue? ==> Cast(FromLe(le), p.t) == p.v)
  {
    var raw := LeBytes(p.Bits(), p.Width());
    if e == Big {
      ReverseReverse(raw);
    }
    FromLeOfLeBytes(p.Bits(), p.Width());
    if p.IntValue? {
      IntRoundTrip(p.v, p.t);
    }
  }

  /** An in-range integer is recovered from its little-endian image by
      reading it back as the same type. */
  lemma IntRoundTrip(v: int, t: IntType)
    requires InRange(v, t)
    ensures Cast(FromLe(LeBytes(v, t.SizeBytes())), t) == v
  {
    FromLeOfLeBytes(v, t.SizeBytes());
    RemainderCongruent(v, Modulus(t));
    CastCongruent(v % Modulus(t), v, t);
    CastOfInRange(v, t);
  }
}
