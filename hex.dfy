/** Intel HEX output of the older pipeline (src/hex.rs): the payload checked
    against the block, optionally byte-swapped, its CRC computed over the
    (swapped) payload alone, the block padded to its full length with the
    CRC written at its offset, and the block cut into Intel HEX records:
    data records that never cross a 64 KiB segment, an extended linear
    address record whenever the upper half of the address changes to a
    non-zero value, and one end-of-file record.

    The CRC routine this generation calls (src/checksum.rs) is not part of
    this model: it is the `crc` parameter. The record list is modelled; its
    text, which the `ihex` crate writes, is not. */
module Hex {
  import opened Common
  import opened Primitives
  import opened Errors
  import opened ByteSwap
  import Schema
  import Output
  import LayoutSettings

  type CrcFunction = seq<byte> -> bv32

  // ---------------------------------------------------------------------
  // The CRC offset

  /** The CRC's offset in the block: an address must lie at or after the
      block start and at or after the payload's end; the keyword `end` is
      the payload's end itself; any other keyword is refused. The 4 CRC
      bytes must then fit in the block (with `offset + 4` exact: see
      `CrcOffsetAsWritten`). */
  function CrcOffset(length: u32, header: Schema.Header): (r: Result<nat, NvmError>)
    ensures header.crcLocation.Address? && header.crcLocation.address < header.startAddress
      ==> r == Err(HexOutputError(CrcBeforeStart))
    ensures header.crcLocation.Address? && header.startAddress <= header.crcLocation.address < header.startAddress + length
      ==> r == Err(HexOutputError(CrcOverlapsPayload))
    ensures header.crcLocation.Keyword? && header.crcLocation.keyword != "end"
      ==> r == Err(HexOutputError(InvalidCrcLocation(header.crcLocation.keyword)))
    ensures r.Ok? ==> length <= r.value && r.value + 4 <= header.length
    ensures r.Ok? && header.crcLocation.Address? ==> r.value == header.crcLocation.address - header.startAddress
    ensures r.Ok? && header.crcLocation.Keyword? ==> r.value == length
    ensures header.crcLocation.Address? && header.startAddress + length <= header.crcLocation.address ==>
      var o := header.crcLocation.address - header.startAddress;
      r == (if o + 4 <= header.length then Ok(o) else Err(HexOutputError(CrcOverrunsBlock)))
    ensures header.crcLocation == Schema.Keyword("end") ==>
      r == (if length + 4 <= header.length then Ok(length) else Err(HexOutputError(CrcOverrunsBlock)))
  {
    var at :- match header.crcLocation
      case Address(address) =>
        if address < header.startAddress then Err(HexOutputError(CrcBeforeStart))
        else if address - header.startAddress < length then Err(HexOutputError(CrcOverlapsPayload))
        else Ok(address - header.startAddress)
      case Keyword(option) =>
        if option == "end" then Ok(length)
        else Err(HexOutputError(InvalidCrcLocation(option)));
    if header.length < at + 4 then Err(HexOutputError(CrcOverrunsBlock))
    else Ok(at)
  }

  /** The offset check as written: `crc_offset + 4` is a `u32` sum, which
      a release build wraps modulo 2^32. */
  function CrcOffsetAsWritten(length: u32, header: Schema.Header): (r: Result<nat, NvmError>)
    ensures r.Ok? ==> r.value < U32_LIMIT
  {
    var at :- match header.crcLocation
      case Address(address) =>
        if address < header.startAddress then Err(HexOutputError(CrcBeforeStart))
        else if address - header.startAddress < length then Err(HexOutputError(CrcOverlapsPayload))
        else Ok(address - header.startAddress)
      case Keyword(option) =>
        if option == "end" then Ok(length)
        else Err(HexOutputError(InvalidCrcLocation(option)));
    if header.length < (at + 4) % U32_LIMIT then Err(HexOutputError(CrcOverrunsBlock))
    else Ok(at)
  }

  /** The wrapped check agrees with the exact one wherever the exact one
      accepts, and otherwise differs only by accepting an overrun. */
  lemma AsWrittenDiffersOnlyByWrap(length: u32, header: Schema.Header)
    ensures CrcOffset(length, header).Ok? ==> CrcOffsetAsWritten(length, header) == CrcOffset(length, header)
    ensures CrcOffsetAsWritten(length, header) != CrcOffset(length, header) ==>
      CrcOffset(length, header) == Err(HexOutputError(CrcOverrunsBlock))
  {
  }

  /** An address 2 bytes below 2^32 in a 16-byte block at 0 passes the
      wrapped check, so the CRC is then copied to bytes the 16-byte buffer
      does not have. */
  lemma WrappedOverrunPasses()
    ensures CrcOffsetAsWritten(0, Schema.Header(0, 16, Schema.Address(0xFFFF_FFFE), 0xFF)) == Ok(0xFFFF_FFFE)
    ensures CrcOffset(0, Schema.Header(0, 16, Schema.Address(0xFFFF_FFFE), 0xFF)) == Err(HexOutputError(CrcOverrunsBlock))
  {
    assert (0xFFFF_FFFE + 4) % U32_LIMIT == 2;
  }

  // ---------------------------------------------------------------------
  // The block

  /** The bytes of s with those from `at` on replaced by data. */
  function Splice(s: seq<byte>, at: nat, data: seq<byte>): (r: seq<byte>)
    requires at + |data| <= |s|
    ensures |r| == |s|
    ensures forall i :: 0 <= i < |s| ==> r[i] == if at <= i < at + |data| then data[i - at] else s[i]
  {
    s[..at] + data + s[at + |data|..]
  }

  /** The block: the payload padded to the block's length with the CRC
      bytes at their offset. */
  function Block(swapped: seq<byte>, header: Schema.Header, crcBytes: seq<byte>, at: nat): seq<byte>
    requires |crcBytes| == 4 && at + 4 <= header.length
  {
    Splice(Resize(swapped, header.length, header.padding), at, crcBytes)
  }

  /** The block holds the payload first, the CRC at its offset and
      padding everywhere else, and it is exactly as long as the header
      says. */
  lemma BlockLayout(swapped: seq<byte>, header: Schema.Header, crcBytes: seq<byte>, at: nat)
    requires |crcBytes| == 4 && |swapped| <= at && at + 4 <= header.length
    ensures var b := Block(swapped, header, crcBytes, at);
      && |b| == header.length
      && b[..|swapped|] == swapped
      && b[at..at + 4] == crcBytes
      && (forall i :: |swapped| <= i < |b| && !(at <= i < at + 4) ==> b[i] == header.padding)
  {
    var b := Block(swapped, header, crcBytes, at);
    assert b[..|swapped|] == swapped;
    assert b[at..at + 4] == crcBytes;
  }

  // ---------------------------------------------------------------------
  // Records

  datatype Record = Data(offset: nat, value: seq<byte>) | ExtendedLinearAddress(upper: nat) | EndOfFile

  function Min(a: nat, b: nat): nat { if a <= b then a else b }

  /** The loop of `emit_hex` from address `addr` and stream index `idx`,
      with `upper` the last upper half announced: a data record of as many
      bytes as remain, the record width allows and the 64 KiB segment
      holds, preceded by an extended linear address record when the upper
      half changes to a non-zero value; the end-of-file record last. The
      address advances as a `u32`. */
  function Records(addr: nat, stream: seq<byte>, idx: nat, upper: Option<nat>, width: nat): (r: seq<Record>)
    requires width >= 1 && idx <= |stream| && addr < U32_LIMIT
    decreases |stream| - idx
  {
    if idx == |stream| then [EndOfFile]
    else
      var hi := addr / 0x1_0000;
      var low := addr % 0x1_0000;
      var n := Min(Min(|stream| - idx, width), 0x1_0000 - low);
      var announce := if upper != Some(hi) && hi != 0 then [ExtendedLinearAddress(hi)] else [];
      announce + [Data(low, stream[idx..idx + n])] + Records((addr + n) % U32_LIMIT, stream, idx + n, Some(hi), width)
  }

  /** Every data record holds between 1 and `width` bytes and stays inside
      its 64 KiB segment; every upper half announced is non-zero and fits
      16 bits; the end-of-file record comes last and only there. */
  lemma {:induction false} RecordsAreWellFormed(addr: nat, stream: seq<byte>, idx: nat, upper: Option<nat>, width: nat)
    requires width >= 1 && idx <= |stream| && addr < U32_LIMIT
    decreases |stream| - idx
    ensures var r := Records(addr, stream, idx, upper, width);
      && |r| >= 1 && r[|r| - 1] == EndOfFile
      && (forall k :: 0 <= k < |r| - 1 ==> !r[k].EndOfFile?)
      && (forall k :: 0 <= k < |r| && r[k].Data? ==>
            1 <= |r[k].value| <= width && r[k].offset + |r[k].value| <= 0x1_0000)
      && (forall k :: 0 <= k < |r| && r[k].ExtendedLinearAddress? ==> 0 < r[k].upper < 0x1_0000)
  {
    if idx < |stream| {
      var hi := addr / 0x1_0000;
      var low := addr % 0x1_0000;
      var n := Min(Min(|stream| - idx, width), 0x1_0000 - low);
      RecordsAreWellFormed((addr + n) % U32_LIMIT, stream, idx + n, Some(hi), width);
    }
  }

  /** The upper half a reader holds: 0 until an extended linear address
      record says otherwise. */
  function ReaderUpper(upper: Option<nat>): nat
  {
    if upper.None? then 0 else upper.value
  }

  /** A reader's view of the records: each data record is its bytes at the
      upper half in force times 64 KiB plus its offset. */
  function Loaded(records: seq<Record>, upper: nat): seq<Output.Segment>
    decreases |records|
  {
    if records == [] then []
    else
      match records[0]
      case Data(offset, value) => [Output.Segment(upper * 0x1_0000 + offset, value)] + Loaded(records[1..], upper)
      case ExtendedLinearAddress(u) => Loaded(records[1..], u)
      case EndOfFile => []
  }

  /** The segments follow one another without gap from `addr`. */
  predicate Contiguous(segments: seq<Output.Segment>, addr: nat)
    decreases |segments|
  {
    segments == [] || (segments[0].address == addr && Contiguous(segments[1..], addr + |segments[0].data|))
  }

  function Bytes(segments: seq<Output.Segment>): seq<byte>
    decreases |segments|
  {
    if segments == [] then [] else segments[0].data + Bytes(segments[1..])
  }

  /** A data record read at upper half u is one segment; an extended
      linear address record changes the upper half. */
  lemma LoadedFront(r: Record, rest: seq<Record>, u: nat)
    requires !r.EndOfFile?
    ensures r.Data? ==> Loaded([r] + rest, u) == [Output.Segment(u * 0x1_0000 + r.offset, r.value)] + Loaded(rest, u)
    ensures r.ExtendedLinearAddress? ==> Loaded([r] + rest, u) == Loaded(rest, r.upper)
  {
    assert ([r] + rest)[0] == r;
    assert ([r] + rest)[1..] == rest;
  }

  /** One segment in front of others. */
  lemma SegmentFront(first: Output.Segment, rest: seq<Output.Segment>, addr: nat)
    ensures Contiguous([first] + rest, addr) <==> first.address == addr && Contiguous(rest, addr + |first.data|)
    ensures Bytes([first] + rest) == first.data + Bytes(rest)
  {
    assert ([first] + rest)[0] == first;
    assert ([first] + rest)[1..] == rest;
  }

  /** One turn of the loop: the records from a position not at the end are
      the optional announcement, one data record, and the records after. */
  lemma RecordsStep(addr: nat, stream: seq<byte>, idx: nat, upper: Option<nat>, width: nat)
    requires width >= 1 && idx < |stream| && addr < U32_LIMIT
    ensures var hi := addr / 0x1_0000;
      var low := addr % 0x1_0000;
      var n := Min(Min(|stream| - idx, width), 0x1_0000 - low);
      && 1 <= n && idx + n <= |stream|
      && Records(addr, stream, idx, upper, width)
         == (if upper != Some(hi) && hi != 0 then [ExtendedLinearAddress(hi)] else [])
            + [Data(low, stream[idx..idx + n])]
            + Records((addr + n) % U32_LIMIT, stream, idx + n, Some(hi), width)
  {
  }

  /** One turn of the loop, read back: one segment at the current
      address, then what the rest of the records hold, read at the upper
      half now in force. */
  lemma LoadedStep(addr: nat, stream: seq<byte>, idx: nat, upper: Option<nat>, width: nat)
    requires width >= 1 && idx < |stream| && addr < U32_LIMIT
    requires upper.Some? ==> upper.value <= addr / 0x1_0000
    ensures var hi := addr / 0x1_0000;
      var n := Min(Min(|stream| - idx, width), 0x1_0000 - addr % 0x1_0000);
      Loaded(Records(addr, stream, idx, upper, width), ReaderUpper(upper))
        == [Output.Segment(addr, stream[idx..idx + n])] + Loaded(Records((addr + n) % U32_LIMIT, stream, idx + n, Some(hi), width), hi)
  {
    var hi := addr / 0x1_0000;
    var low := addr % 0x1_0000;
    var n := Min(Min(|stream| - idx, width), 0x1_0000 - low);
    RecordsStep(addr, stream, idx, upper, width);
    var rest := Records((addr + n) % U32_LIMIT, stream, idx + n, Some(hi), width);
    var data := Data(low, stream[idx..idx + n]);
    LoadedFront(data, rest, hi);
    assert hi * 0x1_0000 + low == addr;
    if upper != Some(hi) && hi != 0 {
      LoadedFront(ExtendedLinearAddress(hi), [data] + rest, ReaderUpper(upper));
      assert [ExtendedLinearAddress(hi)] + [data] + rest == [ExtendedLinearAddress(hi)] + ([data] + rest);
    } else {
      assert ReaderUpper(upper) == hi;
      assert [] + [data] + rest == [data] + rest;
    }
  }

  /** At the end of the stream only the end-of-file record is left, and a
      reader finds nothing in it. */
  lemma RecordsAtEnd(addr: nat, stream: seq<byte>, upper: Option<nat>, width: nat, u: nat)
    requires width >= 1 && addr < U32_LIMIT
    ensures Records(addr, stream, |stream|, upper, width) == [EndOfFile]
    ensures Loaded(Records(addr, stream, |stream|, upper, width), u) == []
  {
    assert Records(addr, stream, |stream|, upper, width) == [EndOfFile];
    assert [EndOfFile][0] == EndOfFile;
  }

  /** What a reader finds in the records from a position on: the stream
      from there, contiguously from the address. */
  predicate ReadsBack(addr: nat, stream: seq<byte>, idx: nat, upper: Option<nat>, width: nat)
    requires width >= 1 && idx <= |stream| && addr < U32_LIMIT
  {
    var segments := Loaded(Records(addr, stream, idx, upper, width), ReaderUpper(upper));
    Contiguous(segments, addr) && Bytes(segments) == stream[idx..]
  }

  /** The induction step of `RecordsRoundTrip`. */
  lemma ReadsBackStep(addr: nat, stream: seq<byte>, idx: nat, upper: Option<nat>, width: nat)
    requires width >= 1 && idx < |stream| && addr < U32_LIMIT
    requires upper.Some? ==> upper.value <= addr / 0x1_0000
    requires var n := Min(Min(|stream| - idx, width), 0x1_0000 - addr % 0x1_0000);
      ReadsBack((addr + n) % U32_LIMIT, stream, idx + n, Some(addr / 0x1_0000), width)
    requires var n := Min(Min(|stream| - idx, width), 0x1_0000 - addr % 0x1_0000);
      idx + n < |stream| ==> (addr + n) % U32_LIMIT == addr + n
    ensures ReadsBack(addr, stream, idx, upper, width)
  {
    var hi := addr / 0x1_0000;
    var n := Min(Min(|stream| - idx, width), 0x1_0000 - addr % 0x1_0000);
    var next := (addr + n) % U32_LIMIT;
    LoadedStep(addr, stream, idx, upper, width);
    var tail := Loaded(Records(next, stream, idx + n, Some(hi), width), hi);
    SegmentFront(Output.Segment(addr, stream[idx..idx + n]), tail, addr);
    if idx + n == |stream| {
      RecordsAtEnd(next, stream, Some(hi), width, hi);
    }
    assert stream[idx..] == stream[idx..idx + n] + stream[idx + n..];
  }

  /** Read back, the records hold the stream from `idx` on, contiguously
      from `addr`, as long as the stream does not run past the 32-bit
      address space: the reader's upper half always matches the one the
      writer last announced (or the default 0), because the upper half
      never goes down. */
  lemma {:induction false} RecordsRoundTrip(addr: nat, stream: seq<byte>, idx: nat, upper: Option<nat>, width: nat)
    requires width >= 1 && idx <= |stream| && addr < U32_LIMIT
    requires addr + (|stream| - idx) <= U32_LIMIT
    requires upper.Some? && idx < |stream| ==> upper.value <= addr / 0x1_0000
    decreases |stream| - idx
    ensures ReadsBack(addr, stream, idx, upper, width)
  {
    if idx == |stream| {
      RecordsAtEnd(addr, stream, upper, width, ReaderUpper(upper));
    } else {
      var n := Min(Min(|stream| - idx, width), 0x1_0000 - addr % 0x1_0000);
      if idx + n < |stream| {
        assert (addr + n) % U32_LIMIT == addr + n;
      }
      RecordsRoundTrip((addr + n) % U32_LIMIT, stream, idx + n, Some(addr / 0x1_0000), width);
      ReadsBackStep(addr, stream, idx, upper, width);
    }
  }

  // ---------------------------------------------------------------------
  // Assembly

  /** The caller's vector after the call, and the records or the error. */
  datatype Outcome = Outcome(buffer: seq<byte>, result: Result<seq<Record>, NvmError>)

  /** `bytestream_to_hex_string` up to the record text: `offset` is added
      to the block's start address as a `u32`. */
  function Assemble(bytes: seq<byte>, header: Schema.Header, settings: Schema.Settings, crc: CrcFunction, offset: u32, byteSwap: bool, width: nat)
    : (o: Outcome)
    requires width >= 1
  {
    if |bytes| > header.length then Outcome(bytes, Err(HexOutputError(LongerThanBlock)))
    else
      var swapped := if byteSwap then PairSwapped(bytes) else bytes;
      match CrcOffset(|swapped|, header)
      case Err(err) => Outcome(swapped, Err(err))
      case Ok(at) =>
        var block := Block(swapped, header, Output.CrcBytes(crc(swapped), settings.endianness, byteSwap), at);
        Outcome(block, Ok(Records((header.startAddress + offset) % U32_LIMIT, block, 0, None, width)))
  }

  /** A payload that fits and a CRC offset that is valid give the block
      and its records. */
  lemma AssembleIsBlock(bytes: seq<byte>, header: Schema.Header, settings: Schema.Settings, crc: CrcFunction, offset: u32, byteSwap: bool, width: nat, at: nat)
    requires width >= 1 && |bytes| <= header.length
    requires CrcOffset(|bytes|, header) == Ok(at)
    ensures var swapped := if byteSwap then PairSwapped(bytes) else bytes;
      var block := Block(swapped, header, Output.CrcBytes(crc(swapped), settings.endianness, byteSwap), at);
      Assemble(bytes, header, settings, crc, offset, byteSwap, width)
        == Outcome(block, Ok(Records((header.startAddress + offset) % U32_LIMIT, block, 0, None, width)))
  {
    var swapped := if byteSwap then PairSwapped(bytes) else bytes;
    assert |swapped| == |bytes|;
  }

  /** An address below 2^32 is its own `u32` value. */
  lemma InRange(x: nat)
    requires x < U32_LIMIT
    ensures x % U32_LIMIT == x
  {
  }

  /** A successful assembly leaves the whole block in the vector: the
      swapped payload, the CRC of the swapped payload alone at the CRC
      offset, and padding everywhere else. */
  lemma AssembledBuffer(bytes: seq<byte>, header: Schema.Header, settings: Schema.Settings, crc: CrcFunction, offset: u32, byteSwap: bool, width: nat, at: nat)
    requires width >= 1 && |bytes| <= header.length
    requires CrcOffset(|bytes|, header) == Ok(at)
    ensures var o := Assemble(bytes, header, settings, crc, offset, byteSwap, width);
      var swapped := if byteSwap then PairSwapped(bytes) else bytes;
      && o.result.Ok?
      && |o.buffer| == header.length
      && o.buffer[..|bytes|] == swapped
      && o.buffer[at..at + 4] == Output.CrcBytes(crc(swapped), settings.endianness, byteSwap)
      && (forall i :: |bytes| <= i < |o.buffer| && !(at <= i < at + 4) ==> o.buffer[i] == header.padding)
  {
    var swapped := if byteSwap then PairSwapped(bytes) else bytes;
    assert |swapped| == |bytes|;
    AssembleIsBlock(bytes, header, settings, crc, offset, byteSwap, width, at);
    BlockLayout(swapped, header, Output.CrcBytes(crc(swapped), settings.endianness, byteSwap), at);
  }

  /** The records of a successful assembly, read back, hold the vector's
      block from the start address on, as long as the block does not run
      past the 32-bit address space. */
  lemma AssembledRecords(bytes: seq<byte>, header: Schema.Header, settings: Schema.Settings, crc: CrcFunction, offset: u32, byteSwap: bool, width: nat, at: nat)
    requires width >= 1 && |bytes| <= header.length
    requires CrcOffset(|bytes|, header) == Ok(at)
    requires header.startAddress + offset + header.length <= U32_LIMIT
    ensures var o := Assemble(bytes, header, settings, crc, offset, byteSwap, width);
      && o.result.Ok?
      && (var segments := Loaded(o.result.value, 0);
          Contiguous(segments, header.startAddress + offset) && Bytes(segments) == o.buffer)
  {
    var swapped := if byteSwap then PairSwapped(bytes) else bytes;
    assert |swapped| == |bytes|;
    var crcBytes := Output.CrcBytes(crc(swapped), settings.endianness, byteSwap);
    AssembleIsBlock(bytes, header, settings, crc, offset, byteSwap, width, at);
    var block := Block(swapped, header, crcBytes, at);
    assert |block| == header.length;
    var base := header.startAddress + offset;
    InRange(base);
    var records := Records(base, block, 0, None, width);
    assert Assemble(bytes, header, settings, crc, offset, byteSwap, width) == Outcome(block, Ok(records));
    RecordsRoundTrip(base, block, 0, None, width);
    assert block[0..] == block;
  }

  // ---------------------------------------------------------------------
  // The source's steps

  /** `emit_hex` up to the record text. */
  method EmitHex(startAddress: u32, stream: seq<byte>, width: nat) returns (records: seq<Record>)
    requires width >= 1
    ensures records == Records(startAddress, stream, 0, None, width)
  {
    records := [];
    var addr: nat := startAddress;
    var idx: nat := 0;
    var upper: Option<nat> := None;
    while idx < |stream|
      invariant idx <= |stream| && addr < U32_LIMIT
      invariant records + Records(addr, stream, idx, upper, width) == Records(startAddress, stream, 0, None, width)
      decreases |stream| - idx
    {
      ghost var before := records;
      var emitted;
      emitted, addr, idx, upper := EmitChunk(addr, stream, idx, upper, width);
      records := records + emitted;
      assert before + (emitted + Records(addr, stream, idx, upper, width)) == records + Records(addr, stream, idx, upper, width);
    }
    assert Records(addr, stream, idx, upper, width) == [EndOfFile];
    records := records + [EndOfFile];
  }

  /** One turn of the loop of `emit_hex`: the extended linear address
      record if the upper half changed to a non-zero value, then one data
      record; the records still to come are then those from the new
      position. */
  method EmitChunk(addr: nat, stream: seq<byte>, idx: nat, upper: Option<nat>, width: nat)
    returns (emitted: seq<Record>, addr': nat, idx': nat, upper': Option<nat>)
    requires width >= 1 && idx < |stream| && addr < U32_LIMIT
    ensures idx < idx' <= |stream| && addr' < U32_LIMIT
    ensures emitted + Records(addr', stream, idx', upper', width) == Records(addr, stream, idx, upper, width)
  {
    RecordsStep(addr, stream, idx, upper, width);
    var hi := addr / 0x1_0000;
    emitted := [];
    upper' := upper;
    if upper != Some(hi) {
      if hi != 0 {
        emitted := [ExtendedLinearAddress(hi)];
      }
      upper' := Some(hi);
    }
    var segmentRemaining := 0x1_0000 - addr % 0x1_0000;
    var n := Min(Min(|stream| - idx, width), segmentRemaining);
    emitted := emitted + [Data(addr % 0x1_0000, stream[idx..idx + n])];
    idx' := idx + n;
    addr' := (addr + n) % U32_LIMIT;
  }

  /** `bytestream_to_hex_string`: the vector is changed in place as the
      source does. */
  method BytestreamToHexString(stream: Output.Stream, header: Schema.Header, settings: Schema.Settings, crc: CrcFunction, offset: u32, byteSwap: bool, width: nat)
    returns (r: Result<seq<Record>, NvmError>)
    requires width >= 1
    modifies stream
    ensures var o := Assemble(old(stream.bytes), header, settings, crc, offset, byteSwap, width);
      stream.bytes == o.buffer && r == o.result
  {
    if |stream.bytes| > header.length {
      return Err(HexOutputError(LongerThanBlock));
    }
    if byteSwap {
      stream.bytes := SwapBytes(stream.bytes);
    }
    var checksum := crc(stream.bytes);
    var crcBytes := LayoutSettings.ToEndianBytes(LayoutSettings.IntValue(U32, checksum as int), settings.endianness);
    if byteSwap {
      crcBytes := SwapBytes(crcBytes);
    }
    var located := CrcOffset(|stream.bytes|, header);
    if located.Err? {
      return Err(located.error);
    }
    var at := located.value;
    stream.bytes := Resize(stream.bytes, header.length, header.padding);
    stream.bytes := Splice(stream.bytes, at, crcBytes);
    var records := EmitHex((header.startAddress + offset) % U32_LIMIT, stream.bytes, width);
    r := Ok(records);
  }
}
