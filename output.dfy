/** Block assembly of the newer pipeline (src/output/mod.rs): the payload
    checked against the block, optionally byte-swapped, the CRC offset
    resolved and validated, the buffer resized and padded by the CRC-area
    rules, the CRC computed and both ranges placed in the output image,
    whose highest address chooses the record address width.

    The payload is the caller's vector, which the source changes in place:
    it is the `Stream` class here, and `Assemble` states both what the
    vector holds afterwards and what is emitted. The image that the
    `bin_file` crate would build is a map from address to byte; the text of
    the records is not modelled. */
module Output {
  import opened Common
  import opened Primitives
  import opened LayoutSettings
  import opened Errors
  import opened ByteSwap
  import Schema
  import Checksum

  const USIZE_MAX: int := 0xFFFF_FFFF_FFFF_FFFF

  // ---------------------------------------------------------------------
  // The CRC offset

  /** The least multiple of 4 at or above n: `(n + 3) & !3`, clearing
      the two low bits of n + 3. */
  function RoundUp4(n: nat): (r: nat)
    ensures r % 4 == 0 && n <= r < n + 4
  {
    (n + 3) - (n + 3) % 4
  }

  /** `validate_crc_location`: the CRC's offset in the block. An address
      must lie at or after the block start and at or after the payload's
      end; the keyword `end` puts the CRC at the payload's end rounded up
      to 4 bytes, and any other keyword is refused. The 4 CRC bytes must
      then fit in the block. The sum `offset + 4` is exact here (see
      `ValidateCrcLocationAsWritten` for the 32-bit sum the source
      computes). `length` is the payload length, which the only caller
      has already bounded by the block length, so `length as u32` is
      exact. */
  function ValidateCrcLocation(length: u32, header: Schema.Header): (r: Result<nat, NvmError>)
    ensures header.crcLocation.Address? && header.crcLocation.address < header.startAddress
      ==> r == Err(HexOutputError(CrcBeforeStart))
    ensures header.crcLocation.Address? && header.startAddress <= header.crcLocation.address < header.startAddress + length
      ==> r == Err(HexOutputError(CrcOverlapsPayload))
    ensures header.crcLocation.Keyword? && header.crcLocation.keyword != "end"
      ==> r == Err(HexOutputError(InvalidCrcLocation(header.crcLocation.keyword)))
    ensures r.Ok? ==> r.value + 4 <= header.length
    ensures r.Ok? && header.crcLocation.Address? ==>
      r.value == header.crcLocation.address - header.startAddress && length <= r.value
    ensures r.Ok? && header.crcLocation.Keyword? ==> r.value == RoundUp4(length)
    ensures r.Err? ==> r.error.HexOutputError?
    ensures header.crcLocation.Address? && header.startAddress + length <= header.crcLocation.address ==>
      var o := header.crcLocation.address - header.startAddress;
      r == (if o + 4 <= header.length then Ok(o) else Err(HexOutputError(CrcOverrunsBlock)))
    ensures header.crcLocation == Schema.Keyword("end") ==>
      r == (if RoundUp4(length) + 4 <= header.length then Ok(RoundUp4(length)) else Err(HexOutputError(CrcOverrunsBlock)))
  {
    var offset :- match header.crcLocation
      case Address(address) =>
        if address < header.startAddress then Err(HexOutputError(CrcBeforeStart))
        else if address - header.startAddress < length then Err(HexOutputError(CrcOverlapsPayload))
        else Ok(address - header.startAddress)
      case Keyword(option) =>
        if option == "end" then Ok(RoundUp4(length))
        else Err(HexOutputError(InvalidCrcLocation(option)));
    if header.length < offset + 4 then Err(HexOutputError(CrcOverrunsBlock))
    else Ok(offset)
  }

  /** `validate_crc_location` as written, with its `u32` arithmetic as a
      release build runs it: `length + 3` and `crc_offset + 4` wrap
      modulo 2^32. */
  function ValidateCrcLocationAsWritten(length: u32, header: Schema.Header): (r: Result<nat, NvmError>)
    ensures r.Ok? ==> r.value < U32_LIMIT
  {
    var offset :- match header.crcLocation
      case Address(address) =>
        if address < header.startAddress then Err(HexOutputError(CrcBeforeStart))
        else if address - header.startAddress < length then Err(HexOutputError(CrcOverlapsPayload))
        else Ok(address - header.startAddress)
      case Keyword(option) =>
        var x := (length + 3) % U32_LIMIT;
        if option == "end" then Ok(x - x % 4)
        else Err(HexOutputError(InvalidCrcLocation(option)));
    if header.length < (offset + 4) % U32_LIMIT then Err(HexOutputError(CrcOverrunsBlock))
    else Ok(offset)
  }

  /** The two readings differ only where the sum wraps: whatever the exact
      check accepts, the 32-bit one accepts with the same offset, and any
      other disagreement is an offset the exact check finds overrunning. */
  lemma AsWrittenDiffersOnlyByWrap(length: u32, header: Schema.Header)
    ensures ValidateCrcLocation(length, header).Ok? ==>
      ValidateCrcLocationAsWritten(length, header) == ValidateCrcLocation(length, header)
    ensures ValidateCrcLocationAsWritten(length, header) != ValidateCrcLocation(length, header) ==>
      ValidateCrcLocation(length, header) == Err(HexOutputError(CrcOverrunsBlock))
  {
  }

  /** Where the 32-bit sum wraps, the check lets an overrunning CRC
      through: an address 2 bytes below 2^32 in a 16-byte block at 0, and
      the `end` keyword after a payload 3 bytes short of 2^32, which even
      puts the CRC at offset 0, over the payload. */
  lemma WrappedOverrunPasses()
    ensures ValidateCrcLocationAsWritten(0, Schema.Header(0, 16, Schema.Address(0xFFFF_FFFE), 0xFF)) == Ok(0xFFFF_FFFE)
    ensures ValidateCrcLocation(0, Schema.Header(0, 16, Schema.Address(0xFFFF_FFFE), 0xFF)) == Err(HexOutputError(CrcOverrunsBlock))
    ensures ValidateCrcLocationAsWritten(0xFFFF_FFFD, Schema.Header(0, 0xFFFF_FFFF, Schema.Keyword("end"), 0xFF)) == Ok(0)
    ensures ValidateCrcLocation(0xFFFF_FFFD, Schema.Header(0, 0xFFFF_FFFF, Schema.Keyword("end"), 0xFF)) == Err(HexOutputError(CrcOverrunsBlock))
  {
    assert (0xFFFF_FFFE + 4) % U32_LIMIT == 2;
    assert (0xFFFF_FFFD + 3) % U32_LIMIT == 0;
  }

  // ---------------------------------------------------------------------
  // The buffer

  /** The buffer with the 4 bytes at `at` set to zero. */
  function ZeroSlot(s: seq<byte>, at: nat): (r: seq<byte>)
    requires at + 4 <= |s|
    ensures |r| == |s|
    ensures forall i :: 0 <= i < |s| ==> r[i] == if at <= i < at + 4 then 0 else s[i]
  {
    s[..at] + [0, 0, 0, 0] + s[at + 4..]
  }

  /** The buffer the CRC is computed over: for a keyword location the
      payload resized to the CRC offset; for the `block` CRC area the whole
      block, padded, with the CRC's own 4 bytes zeroed. */
  function CrcRegion(payload: seq<byte>, header: Schema.Header, area: CrcArea, offset: nat): (r: seq<byte>)
    requires offset + 4 <= header.length
  {
    var sized := if header.crcLocation.Keyword? then Resize(payload, offset, header.padding) else payload;
    if area == Block then ZeroSlot(Resize(sized, header.length, header.padding), offset) else sized
  }

  /** The CRC laid out in the settings' byte order, pair-swapped when the
      stream is. */
  function CrcBytes(crc: bv32, e: Endianness, byteSwap: bool): (r: seq<byte>)
    ensures |r| == 4
  {
    var raw := ToEndianBytes(IntValue(U32, crc as int), e);
    if byteSwap then PairSwapped(raw) else raw
  }

  // ---------------------------------------------------------------------
  // The image

  /** A payload and its CRC, each at its address. */
  datatype DataRange = DataRange(startAddress: nat, bytestream: seq<byte>, crcAddress: nat, crcBytestream: seq<byte>)

  datatype OutputFormat = Hex | Mot

  /** The record address widths: Intel HEX 16 or 32 bits, S-record 16,
      24 or 32 bits. */
  datatype AddressWidth = IHex16 | IHex32 | SRec16 | SRec24 | SRec32

  /** The address space a width reaches. */
  function Reach(w: AddressWidth): nat
  {
    match w
    case IHex16 | SRec16 => 0x1_0000
    case SRec24 => 0x100_0000
    case IHex32 | SRec32 => 0x1_0000_0000
  }

  predicate OfFormat(w: AddressWidth, format: OutputFormat)
  {
    if format == Hex then w.IHex16? || w.IHex32? else w.SRec16? || w.SRec24? || w.SRec32?
  }

  /** A run of bytes at an address, as the image holds it. */
  datatype Segment = Segment(address: nat, data: seq<byte>)

  /** Two runs share an address. */
  predicate Overlaps(x: Segment, y: Segment)
  {
    x.address < y.address + |y.data| && y.address < x.address + |x.data|
  }

  /** The byte the image holds at address a: the last run placed over a
      wins. */
  function ByteAt(image: seq<Segment>, a: nat): (r: Option<byte>)
    decreases |image|
  {
    if image == [] then None
    else
      var last := image[|image| - 1];
      if last.address <= a < last.address + |last.data| then Some(last.data[a - last.address])
      else ByteAt(image[..|image| - 1], a)
  }

  /** What `emit_hex` hands to the record writer: the image, the highest
      end address and the chosen width. */
  datatype Emission = Emission(image: seq<Segment>, maxEnd: nat, width: AddressWidth)

  /** `BinFile::add_bytes`: without `overwrite`, a run that would share an
      address with one already placed is refused; with it, it is laid over
      them. */
  function AddBytes(image: seq<Segment>, addr: nat, data: seq<byte>, overwrite: bool): (r: Result<seq<Segment>, NvmError>)
    ensures r.Ok? <==> overwrite || forall i :: 0 <= i < |image| ==> !Overlaps(image[i], Segment(addr, data))
    ensures r.Ok? ==> r.value == image + [Segment(addr, data)]
    ensures r.Err? ==> r.error == HexOutputError(AddBytesFailed)
  {
    if !overwrite && exists i :: 0 <= i < |image| && Overlaps(image[i], Segment(addr, data)) then Err(HexOutputError(AddBytesFailed))
    else Ok(image + [Segment(addr, data)])
  }

  /** A run placed last is what the image holds at each of its addresses;
      elsewhere the image is unchanged. */
  lemma ByteAtAfterAdd(image: seq<Segment>, seg: Segment, a: nat)
    ensures seg.address <= a < seg.address + |seg.data| ==> ByteAt(image + [seg], a) == Some(seg.data[a - seg.address])
    ensures !(seg.address <= a < seg.address + |seg.data|) ==> ByteAt(image + [seg], a) == ByteAt(image, a)
  {
    assert (image + [seg])[..|image|] == image;
  }

  /** `(addr as usize).saturating_add(len)` */
  function SaturatingEnd(addr: nat, len: nat): (r: nat)
    ensures r == addr + len || (r == USIZE_MAX && addr + len > USIZE_MAX)
  {
    if addr + len > USIZE_MAX then USIZE_MAX else addr + len
  }

  /** m is where the range's payload or its CRC ends. */
  predicate IsEndOf(range: DataRange, m: nat)
  {
    m == SaturatingEnd(range.startAddress, |range.bytestream|) || m == SaturatingEnd(range.crcAddress, |range.crcBytestream|)
  }

  function Max(a: nat, b: nat): nat { if b > a then b else a }

  /** The range loop of `emit_hex` from the i-th range on, with the image
      and the highest end so far. */
  function AddRanges(ranges: seq<DataRange>, i: nat, image: seq<Segment>, maxEnd: nat): (r: Result<(seq<Segment>, nat), NvmError>)
    requires i <= |ranges|
    decreases |ranges| - i
  {
    if i == |ranges| then Ok((image, maxEnd))
    else
      var range := ranges[i];
      var placed :- AddBytes(image, range.startAddress, range.bytestream, false);
      var withCrc :- AddBytes(placed, range.crcAddress, range.crcBytestream, true);
      var end := Max(Max(maxEnd, SaturatingEnd(range.startAddress, |range.bytestream|)),
                     SaturatingEnd(range.crcAddress, |range.crcBytestream|));
      AddRanges(ranges, i + 1, withCrc, end)
  }

  /** The width choice of `emit_hex`: 16-bit records while the image ends
      at or below 64 KiB, then 32 bits for Intel HEX, 24 bits up to 16 MiB
      and 32 bits above for S-records. */
  function ChooseWidth(format: OutputFormat, maxEnd: nat): (w: AddressWidth)
    ensures OfFormat(w, format)
  {
    match format
    case Hex => if maxEnd <= 0x1_0000 then IHex16 else IHex32
    case Mot => if maxEnd <= 0x1_0000 then SRec16 else if maxEnd <= 0x100_0000 then SRec24 else SRec32
  }

  /** The chosen width is the narrowest of its format that reaches the
      image's end (when any does). */
  lemma WidthIsNarrowestThatReaches(format: OutputFormat, maxEnd: nat)
    ensures maxEnd <= 0x1_0000_0000 ==> maxEnd <= Reach(ChooseWidth(format, maxEnd))
    ensures forall w :: OfFormat(w, format) && maxEnd <= Reach(w) ==> Reach(ChooseWidth(format, maxEnd)) <= Reach(w)
  {
  }

  /** `emit_hex` up to the record text: every range placed, the highest
      end, the width. */
  function Emitted(ranges: seq<DataRange>, format: OutputFormat): (r: Result<Emission, NvmError>)
  {
    var placed :- AddRanges(ranges, 0, [], 0);
    Ok(Emission(placed.0, placed.1, ChooseWidth(format, placed.1)))
  }

  /** The highest end is at least every range's two ends, and is one of
      them (or 0 with no range). */
  lemma {:induction false} AddRangesTracksMaxEnd(ranges: seq<DataRange>, i: nat, image: seq<Segment>, maxEnd: nat)
    requires i <= |ranges|
    requires AddRanges(ranges, i, image, maxEnd).Ok?
    decreases |ranges| - i
    ensures var m := AddRanges(ranges, i, image, maxEnd).value.1;
      && m >= maxEnd
      && (forall j :: i <= j < |ranges| ==>
            m >= SaturatingEnd(ranges[j].startAddress, |ranges[j].bytestream|)
            && m >= SaturatingEnd(ranges[j].crcAddress, |ranges[j].crcBytestream|))
      && (m == maxEnd || exists j :: i <= j < |ranges| && IsEndOf(ranges[j], m))
  {
    if i < |ranges| {
      var range := ranges[i];
      var placed := AddBytes(image, range.startAddress, range.bytestream, false).value;
      var withCrc := AddBytes(placed, range.crcAddress, range.crcBytestream, true).value;
      var end := Max(Max(maxEnd, SaturatingEnd(range.startAddress, |range.bytestream|)),
                     SaturatingEnd(range.crcAddress, |range.crcBytestream|));
      AddRangesTracksMaxEnd(ranges, i + 1, withCrc, end);
    }
  }

  /** A single range is always placed, the payload first and its CRC
      over it. */
  lemma SingleRangeIsPlaced(range: DataRange, format: OutputFormat)
    ensures Emitted([range], format).Ok?
    ensures Emitted([range], format).value.image
         == [Segment(range.startAddress, range.bytestream), Segment(range.crcAddress, range.crcBytestream)]
  {
    var placed := AddBytes([], range.startAddress, range.bytestream, false);
    assert placed.Ok?;
    var withCrc := AddBytes(placed.value, range.crcAddress, range.crcBytestream, true);
    var end := Max(Max(0, SaturatingEnd(range.startAddress, |range.bytestream|)),
                   SaturatingEnd(range.crcAddress, |range.crcBytestream|));
    assert AddRanges([range], 1, withCrc.value, end) == Ok((withCrc.value, end));
    assert AddRanges([range], 0, [], 0) == AddRanges([range], 1, withCrc.value, end);
  }

  /** In a range's image the CRC wins where the two meet: every CRC byte is
      at its address, every other payload byte at its own, and nothing
      else is placed. */
  lemma CrcOverwritesPayload(range: DataRange, a: nat)
    ensures var image := [Segment(range.startAddress, range.bytestream), Segment(range.crcAddress, range.crcBytestream)];
      && (range.crcAddress <= a < range.crcAddress + |range.crcBytestream| ==>
            ByteAt(image, a) == Some(range.crcBytestream[a - range.crcAddress]))
      && (range.startAddress <= a < range.startAddress + |range.bytestream|
          && !(range.crcAddress <= a < range.crcAddress + |range.crcBytestream|) ==>
            ByteAt(image, a) == Some(range.bytestream[a - range.startAddress]))
      && (ByteAt(image, a).Some? <==> (
            || range.startAddress <= a < range.startAddress + |range.bytestream|
            || range.crcAddress <= a < range.crcAddress + |range.crcBytestream|))
  {
    var payload := Segment(range.startAddress, range.bytestream);
    ByteAtAfterAdd([], payload, a);
    ByteAtAfterAdd([payload], Segment(range.crcAddress, range.crcBytestream), a);
    assert [payload] == [] + [payload];
  }

  // ---------------------------------------------------------------------
  // Assembly

  /** How the CRC of the CRC region is computed: `calculate_crc` with the
      settings' parameters (see `SettingsCrc`). The assembly takes it as a
      parameter so that its layout properties hold for any CRC. */
  type CrcFunction = seq<byte> -> bv32

  function SettingsCrc(c: CrcData): (f: CrcFunction)
    ensures forall data :: f(data) == Checksum.Crc(c, data)
  {
    data => Checksum.Crc(c, data)
  }

  /** The caller's vector after the call, and the result. */
  datatype Outcome = Outcome(buffer: seq<byte>, result: Result<Emission, NvmError>)

  /** The vector once the CRC offset is known: the CRC region, filled to
      the block's end when `pad_to_end` is set. */
  function Finished(swapped: seq<byte>, header: Schema.Header, area: CrcArea, padToEnd: bool, offset: nat): seq<byte>
    requires offset + 4 <= header.length
  {
    var region := CrcRegion(swapped, header, area, offset);
    if padToEnd then Resize(region, header.length, header.padding) else region
  }

  /** `bytestream_to_hex_string` up to the record text. */
  function Assemble(bytes: seq<byte>, header: Schema.Header, settings: Settings, crc: CrcFunction, byteSwap: bool, padToEnd: bool, format: OutputFormat)
    : (o: Outcome)
  {
    if |bytes| > header.length then Outcome(bytes, Err(HexOutputError(LongerThanBlock)))
    else
      var swapped := if byteSwap then PairSwapped(bytes) else bytes;
      match ValidateCrcLocation(|swapped|, header)
      case Err(err) => Outcome(swapped, Err(err))
      case Ok(offset) => Placed(swapped, header, settings, crc, byteSwap, padToEnd, format, offset)
  }

  /** The assembly once the CRC offset is known: the vector goes to the
      block start plus the virtual offset, its CRC to that address plus
      the offset. */
  function Placed(swapped: seq<byte>, header: Schema.Header, settings: Settings, crc: CrcFunction, byteSwap: bool, padToEnd: bool, format: OutputFormat, offset: nat)
    : (o: Outcome)
    requires offset + 4 <= header.length
  {
    var range := PlacedRange(swapped, header, settings, crc, byteSwap, padToEnd, offset);
    Outcome(range.bytestream, Emitted([range], format))
  }

  /** The vector at the block start plus the virtual offset, and its CRC
      at that address plus the CRC offset. */
  function PlacedRange(swapped: seq<byte>, header: Schema.Header, settings: Settings, crc: CrcFunction, byteSwap: bool, padToEnd: bool, offset: nat)
    : DataRange
    requires offset + 4 <= header.length
  {
    var start := header.startAddress + settings.virtualOffset;
    DataRange(start, Finished(swapped, header, settings.crc.area, padToEnd, offset), start + offset,
              CrcBytes(crc(CrcRegion(swapped, header, settings.crc.area, offset)), settings.endianness, byteSwap))
  }

  /** A payload longer than the block is refused before anything is
      touched; a CRC location that does not validate is refused after the
      swap, which the vector keeps. */
  lemma AssembleRejects(bytes: seq<byte>, header: Schema.Header, settings: Settings, crc: CrcFunction, byteSwap: bool, padToEnd: bool, format: OutputFormat)
    ensures |bytes| > header.length ==>
      Assemble(bytes, header, settings, crc, byteSwap, padToEnd, format) == Outcome(bytes, Err(HexOutputError(LongerThanBlock)))
    ensures |bytes| <= header.length && ValidateCrcLocation(|bytes|, header).Err? ==>
      Assemble(bytes, header, settings, crc, byteSwap, padToEnd, format)
        == Outcome(if byteSwap then PairSwapped(bytes) else bytes, Err(ValidateCrcLocation(|bytes|, header).error))
  {
  }

  /** What a successful assembly leaves in the vector: the (swapped)
      payload first and padding after it; with a keyword location the
      vector reaches exactly the CRC offset; with the `block` area or
      `pad_to_end` it is the whole block, and the `block` area zeroes the
      CRC's 4 bytes; with neither and an address location it is the
      payload alone. */
  lemma FinishedLayout(swapped: seq<byte>, header: Schema.Header, area: CrcArea, padToEnd: bool, offset: nat)
    requires |swapped| <= header.length
    requires ValidateCrcLocation(|swapped|, header) == Ok(offset)
    ensures var buf := Finished(swapped, header, area, padToEnd, offset);
      && |swapped| <= |buf|
      && buf[..|swapped|] == swapped
      && (padToEnd || area == Block ==> |buf| == header.length)
      && (!padToEnd && area == Data && header.crcLocation.Keyword? ==> |buf| == offset == RoundUp4(|swapped|))
      && (!padToEnd && area == Data && header.crcLocation.Address? ==> buf == swapped)
      && (forall i :: |swapped| <= i < |buf| && !(area == Block && offset <= i < offset + 4) ==> buf[i] == header.padding)
      && (area == Block ==> buf[offset..offset + 4] == [0, 0, 0, 0])
  {
    var buf := Finished(swapped, header, area, padToEnd, offset);
    assert buf[..|swapped|] == swapped;
    if area == Block {
      assert buf[offset..offset + 4] == [0, 0, 0, 0];
    }
  }

  /** Once the CRC offset validates, the assembly is `Placed` at it. */
  lemma AssembleIsPlaced(bytes: seq<byte>, header: Schema.Header, settings: Settings, crc: CrcFunction, byteSwap: bool, padToEnd: bool, format: OutputFormat, offset: nat)
    requires |bytes| <= header.length
    requires ValidateCrcLocation(|bytes|, header) == Ok(offset)
    ensures var swapped := if byteSwap then PairSwapped(bytes) else bytes;
      Assemble(bytes, header, settings, crc, byteSwap, padToEnd, format) == Placed(swapped, header, settings, crc, byteSwap, padToEnd, format, offset)
  {
    var swapped := if byteSwap then PairSwapped(bytes) else bytes;
    assert |swapped| == |bytes|;
  }

  /** A placed assembly emits the vector at the block start plus the
      virtual offset and, over it, the CRC of the CRC region in the
      settings' byte order at that address plus the CRC offset: the CRC's
      4 bytes are what the image holds there. */
  lemma PlacedEmission(swapped: seq<byte>, header: Schema.Header, settings: Settings, crc: CrcFunction, byteSwap: bool, padToEnd: bool, format: OutputFormat, offset: nat)
    requires offset + 4 <= header.length
    ensures var o := Placed(swapped, header, settings, crc, byteSwap, padToEnd, format, offset);
      var crcBytes := CrcBytes(crc(CrcRegion(swapped, header, settings.crc.area, offset)), settings.endianness, byteSwap);
      var start := header.startAddress + settings.virtualOffset;
      && o.buffer == Finished(swapped, header, settings.crc.area, padToEnd, offset)
      && o.result.Ok?
      && o.result.value.image == [Segment(start, o.buffer), Segment(start + offset, crcBytes)]
      && (forall j :: 0 <= j < 4 ==> ByteAt(o.result.value.image, start + offset + j) == Some(crcBytes[j]))
  {
    var crcBytes := CrcBytes(crc(CrcRegion(swapped, header, settings.crc.area, offset)), settings.endianness, byteSwap);
    var start := header.startAddress + settings.virtualOffset;
    var final := Finished(swapped, header, settings.crc.area, padToEnd, offset);
    var range := DataRange(start, final, start + offset, crcBytes);
    SingleRangeIsPlaced(range, format);
    forall j | 0 <= j < 4
      ensures ByteAt([Segment(start, final), Segment(start + offset, crcBytes)], start + offset + j) == Some(crcBytes[j])
    {
      CrcOverwritesPayload(range, start + offset + j);
    }
  }

  /** With `pad_to_end` off, a 4-byte payload in a 16-byte block with the
      CRC at `end` stays 4 bytes long and the CRC follows it at offset 4;
      with it on, a 32-byte block fills the vector to 32 bytes. */
  lemma PadToEndExamples(settings: Settings, crc: CrcFunction, format: OutputFormat)
    requires settings.crc.area == Data
    ensures var small := Schema.Header(0, 16, Schema.Keyword("end"), 0xFF);
      && ValidateCrcLocation(4, small) == Ok(4)
      && Assemble([1, 2, 3, 4], small, settings, crc, false, false, format).buffer == [1, 2, 3, 4]
    ensures var large := Schema.Header(0, 32, Schema.Keyword("end"), 0xFF);
      |Assemble([1, 2, 3, 4], large, settings, crc, false, true, format).buffer| == 32
  {
    var payload: seq<byte> := [1, 2, 3, 4];
    var small := Schema.Header(0, 16, Schema.Keyword("end"), 0xFF);
    var large := Schema.Header(0, 32, Schema.Keyword("end"), 0xFF);
    assert ValidateCrcLocation(4, small) == Ok(4);
    assert ValidateCrcLocation(4, large) == Ok(4);
    AssembleIsPlaced(payload, small, settings, crc, false, false, format, 4);
    AssembleIsPlaced(payload, large, settings, crc, false, true, format, 4);
    assert Resize(payload, 4, 0xFF) == payload;
  }

  // ---------------------------------------------------------------------
  // The source's steps

  /** The caller's byte vector. */
  class Stream {
    var bytes: seq<byte>

    constructor (bytes: seq<byte>)
      ensures this.bytes == bytes
    {
      this.bytes := bytes;
    }
  }

  /** `emit_hex` up to the record text. */
  method EmitHex(ranges: seq<DataRange>, format: OutputFormat) returns (r: Result<Emission, NvmError>)
    ensures r == Emitted(ranges, format)
  {
    var image: seq<Segment> := [];
    var maxEnd: nat := 0;
    var i := 0;
    while i < |ranges|
      invariant 0 <= i <= |ranges|
      invariant AddRanges(ranges, i, image, maxEnd) == AddRanges(ranges, 0, [], 0)
    {
      var range := ranges[i];
      var placed := AddBytes(image, range.startAddress, range.bytestream, false);
      if placed.Err? {
        return Err(placed.error);
      }
      var withCrc := AddBytes(placed.value, range.crcAddress, range.crcBytestream, true);
      image := withCrc.value;
      var end := SaturatingEnd(range.startAddress, |range.bytestream|);
      if end > maxEnd {
        maxEnd := end;
      }
      end := SaturatingEnd(range.crcAddress, |range.crcBytestream|);
      if end > maxEnd {
        maxEnd := end;
      }
      i := i + 1;
    }
    var width;
    if format == Hex {
      width := if maxEnd <= 0x1_0000 then IHex16 else IHex32;
    } else {
      width := if maxEnd <= 0x1_0000 then SRec16 else if maxEnd <= 0x100_0000 then SRec24 else SRec32;
    }
    r := Ok(Emission(image, maxEnd, width));
  }

  /** The resize for a keyword location and the fill for the `block` CRC
      area. */
  method ShapeCrcRegion(stream: Stream, header: Schema.Header, area: CrcArea, offset: nat)
    requires offset + 4 <= header.length
    modifies stream
    ensures stream.bytes == CrcRegion(old(stream.bytes), header, area, offset)
  {
    if header.crcLocation.Keyword? {
      stream.bytes := Resize(stream.bytes, offset, header.padding);
    }
    if area == Block {
      stream.bytes := Resize(stream.bytes, header.length, header.padding);
      stream.bytes := ZeroSlot(stream.bytes, offset);
    }
  }

  /** The CRC of the region, laid out in the settings' byte order and
      swapped with the stream. */
  method EncodeCrc(region: seq<byte>, settings: Settings, byteSwap: bool) returns (crcBytes: seq<byte>)
    ensures crcBytes == CrcBytes(SettingsCrc(settings.crc)(region), settings.endianness, byteSwap)
  {
    var checksum := Checksum.CalculateCrc(region, settings.crc);
    crcBytes := ToEndianBytes(IntValue(U32, checksum as int), settings.endianness);
    if byteSwap {
      crcBytes := SwapBytes(crcBytes);
    }
  }

  /** The steps of `bytestream_to_hex_string` after the CRC offset
      validates. */
  method PlaceStream(stream: Stream, header: Schema.Header, settings: Settings, byteSwap: bool, padToEnd: bool, format: OutputFormat, offset: nat)
    returns (r: Result<Emission, NvmError>)
    requires offset + 4 <= header.length
    modifies stream
    ensures var o := Placed(old(stream.bytes), header, settings, SettingsCrc(settings.crc), byteSwap, padToEnd, format, offset);
      stream.bytes == o.buffer && r == o.result
  {
    ShapeCrcRegion(stream, header, settings.crc.area, offset);
    var crcBytes := EncodeCrc(stream.bytes, settings, byteSwap);
    if padToEnd {
      stream.bytes := Resize(stream.bytes, header.length, header.padding);
    }
    var start := header.startAddress + settings.virtualOffset;
    var range := DataRange(start, stream.bytes, start + offset, crcBytes);
    assert range == PlacedRange(old(stream.bytes), header, settings, SettingsCrc(settings.crc), byteSwap, padToEnd, offset);
    r := EmitHex([range], format);
  }

  /** `bytestream_to_hex_string`: the vector is changed in place, step by
      step, as the source does. */
  method BytestreamToHexString(stream: Stream, header: Schema.Header, settings: Settings, byteSwap: bool, padToEnd: bool, format: OutputFormat)
    returns (r: Result<Emission, NvmError>)
    modifies stream
    ensures var o := Assemble(old(stream.bytes), header, settings, SettingsCrc(settings.crc), byteSwap, padToEnd, format);
      stream.bytes == o.buffer && r == o.result
  {
    if |stream.bytes| > header.length {
      return Err(HexOutputError(LongerThanBlock));
    }
    if byteSwap {
      stream.bytes := SwapBytes(stream.bytes);
    }
    var located := ValidateCrcLocation(|stream.bytes|, header);
    if located.Err? {
      return Err(located.error);
    }
    var offset := located.value;
    r := PlaceStream(stream, header, settings, byteSwap, padToEnd, format, offset);
    AssembleIsPlaced(old(stream.bytes), header, settings, SettingsCrc(settings.crc), byteSwap, padToEnd, format, offset);
  }
}
