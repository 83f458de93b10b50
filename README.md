# nvmbuilder, modelled in Dafny

nvmbuilder builds the contents of non-volatile memory blocks for embedded
targets. A layout file describes each block:
- a header with the start address, the length, the padding byte and where the CRC goes;
- a tree of typed fields, each a literal or a name looked up in an Excel data sheet.

From a layout, the tool packs the fields into a byte stream. It pads and
optionally byte-swaps the stream and appends a 32-bit CRC. It then emits the
block as Intel HEX or Motorola S-records. Along the way it can dump the
resolved values as JSON and report build statistics.

The repository holds two generations of this pipeline, and the model covers both.

The older pipeline:
- `src/schema.rs` (typed values and their conversions);
- `src/types.rs` (configuration values);
- `src/emit.rs` and `src/layout.rs` (the byte stream);
- `src/hex.rs` (CRC placement and Intel HEX records);
- `src/dump.rs` (the JSON dump);
- `src/variants.rs` (data-sheet lookup).

The later pipeline:
- `src/layout/` (settings, types, conversions, entries and the block builder with alignment);
- `src/output/` (CRC location, the CRC itself, byte swapping and the memory image);
- `src/variant/` and `src/variants/` (data-sheet readers);
- `src/writer.rs`, `src/commands/stats.rs`, the block argument parser in `src/layout/args.rs`;
- the formatters in `src/visuals/formatters.rs`, whose copies in `src/printer.rs` behave the same.

Each Dafny module follows one source file:

| module | source |
|---|---|
| `Primitives`, `Common`, `Errors` | integer widths, casts, byte images; shared helpers; error kinds |
| `Schema`, `ConfigValues`, `LegacyEmit`, `LegacyLayout`, `ValueBytes`, `Dump`, `LegacyVariants`, `Hex` | `src/schema.rs`, `src/types.rs`, `src/emit.rs`, `src/layout.rs`, the loops shared by the emitters, `src/dump.rs`, `src/variants.rs`, `src/hex.rs` |
| `LayoutSettings`, `LayoutTypes`, `Conversions`, `LayoutEntry`, `LayoutBlock`, `BlockArgs` | `src/layout/settings.rs`, `types.rs`, `conversions.rs`, `entry.rs`, `block.rs`, `args.rs` |
| `Checksum`, `ByteSwap`, `Output` | `src/output/checksum.rs`; `byte_swap_inplace` in `src/output/mod.rs` and `src/hex.rs`; `src/output/mod.rs` |
| `Workbook`, `Variant`, `VariantsToml`, `Toml` | the loaded data sheet; `src/variant/mod.rs`; `src/variants/mod.rs`; TOML tables |
| `Writer`, `Stats`, `Formatters` | `src/writer.rs`, `src/commands/stats.rs`, `src/visuals/formatters.rs` |

The code that is pure becomes functions with lemmas about them. Where the
source works step by step, the model does too:
- byte swapping in place on an `array`;
- the CRC loops;
- the emit and padding loops;
- the row walks over a sheet;
- the dump's walk, as a class that carries the offset and the padding map;
- the block builder with its buffer and offset;
- the statistics counters.

Each such method is proved against the function that specifies it, and the
properties are proved about those functions.

## Model

| member | source | states |
|---|---|---|
| Checksum.ReverseBitsMirrors | src/output/checksum.rs:7-18 | `reverse_bits` moves bit i to bit 31 - i, for every i below 32 |
| Checksum.ReverseBitsInvolution | src/output/checksum.rs:48-50 | reversing the register twice gives it back |
| Checksum.EightRoundsAreRounds | src/output/checksum.rs:28-38 | the eight rounds written out are the eight-step iteration of one round, in either direction |
| Checksum.MaskTimesPoly | src/output/checksum.rs:32 | multiplying the polynomial by the shifted-out bit is selecting the polynomial or zero |
| Checksum.FoldAppend | src/output/checksum.rs:21-45 | the register after `a ++ b` is the register after `b` started from the register after `a` |
| Checksum.FoldSnoc | src/output/checksum.rs:21-45 | one more input byte applies exactly one byte step |
| Checksum.CrcOfEmpty | src/output/checksum.rs:7-52 | with no input the CRC is the finalised initial register |
| Checksum.ReflectionOfParameters | src/output/checksum.rs:7-18 | start value and polynomial are bit-reversed exactly when `ref_in` is set, and used unchanged otherwise |
| Checksum.FinaliseReflectsIffRefInDiffers | src/output/checksum.rs:48-52 | the final register is bit-reversed exactly when `ref_in` and `ref_out` differ, then xor-ed with `xor_out` |
| Checksum.ApplyRounds | src/output/checksum.rs:28-38 | the two eight-round loops compute the round function iterated eight times in the direction `ref_in` chooses |
| Checksum.ProcessBytes | src/output/checksum.rs:20-45 | the corrected byte loop leaves the register equal to the left fold of the byte step over the input |
| Checksum.CalculateCrc | src/output/checksum.rs:5-53 | the corrected `calculate_crc` (index byte in the top byte on the non-reflected path, as the crc crate does) returns the specification `Crc`: reflected parameters, the fold over the bytes, then finalisation |
| Checksum.FoldFollowsTrace | src/output/checksum.rs:21-45 | a list of registers that agrees with one byte step per input byte ends in the fold's result |
| Checksum.ByteStepUnrolled | src/output/checksum.rs:21-45 | the byte step equals its eight rounds written out, for evaluation on constants |
| Checksum.IsoHdlcParameters | src/output/checksum.rs:7-18 | under CRC-32 (ISO-HDLC) parameters the loop starts from the reflected start value and polynomial |
| Checksum.Crc32IsoHdlcCheckValue | src/output/checksum.rs:3-52 | with polynomial 0x04C11DB7, start and xor-out 0xFFFFFFFF and both reflections, "123456789" gives 0xCBF43926 |
| Checksum.Crc32Mpeg2CheckValue | src/output/checksum.rs:3-52 | with xor-out 0 and no reflection, "123456789" gives 0x0376E6E7 (CRC-32/MPEG-2) in the corrected engine |
| Checksum.ForwardRoundWithoutCarry | src/output/checksum.rs:35-37 | a left round on a register whose bit 31 is clear never applies the polynomial |
| Checksum.ForwardRoundsNeverReachBit31 | src/output/checksum.rs:22-37 | as written, eight left rounds of a low-byte index never reach bit 31, so they only shift |
| Checksum.ByteStepAsWrittenForward | src/output/checksum.rs:21-44 | as written, a non-reflected byte step is the index shifted left by 8, xor-ed with the register shifted left by 8 |
| Checksum.AsWrittenAgreesWhenReflected | src/output/checksum.rs:21-45 | for reflected parameters the code as written and the corrected engine compute the same register |
| Checksum.FoldAsWrittenFollowsTrace | src/output/checksum.rs:21-45 | a trace of registers under the as-written step ends in the as-written fold |
| Checksum.AsWrittenMissesMpeg2CheckValue | src/output/checksum.rs:22-44 | as written, CRC-32/MPEG-2 of "123456789" is 0x32C0C300, not the catalogue value 0x0376E6E7 |
| ByteSwap.PairSwapped | src/output/mod.rs:19-23 | the swapped stream has the same length and position i holds the byte of its pair partner (itself for an odd last byte) |
| ByteSwap.PartnerOfPartner | src/output/mod.rs:19-23 | the pair partner of a position's partner is that position |
| ByteSwap.SwapTwiceIsIdentity | src/output/mod.rs:19-23 | swapping twice gives the stream back (the swap is an involution) |
| ByteSwap.OddLastByteStays | src/output/mod.rs:19-23 | an odd trailing byte stays in place |
| ByteSwap.ByteSwapInPlace | src/hex.rs:7-11 | the in-place loop over the array leaves it equal to the pair-swapped old contents |
| ByteSwap.SwapBytes | src/output/mod.rs:19-23 | swapping a vector's slice in place gives the pair-swapped vector |
| Output.RoundUp4 | src/output/mod.rs:41 | `(len + 3) & !3` is the least multiple of 4 at or above `len` |
| Output.ValidateCrcLocation | src/output/mod.rs:25-58 | an address before the block start, one inside the payload and a keyword other than "end" are each refused with their message; an address at or after the payload, and "end" (the payload length rounded up to 4), are accepted with that offset exactly when its 4 CRC bytes fit in the block, and otherwise refused with "CRC location would overrun block" |
| Output.ValidateCrcLocationAsWritten | src/output/mod.rs:25-58 | the same check with the `u32` sums wrapping modulo 2^32; its result is below 2^32 |
| Output.AsWrittenDiffersOnlyByWrap | src/output/mod.rs:41 | the as-written check accepts whatever the exact check accepts, and differs from it only on offsets the exact check finds overrunning (also line 51) |
| Output.WrappedOverrunPasses | src/output/mod.rs:51 | as written, an address at 0xFFFFFFFE in a 16-byte block, and "end" after 0xFFFFFFFD bytes, pass the overrun check |
| Output.ZeroSlot | src/output/mod.rs:91 | the 4 bytes at the CRC offset become 0 and every other byte is kept |
| Output.CrcBytes | src/output/mod.rs:97-103 | the CRC is laid out as 4 bytes in the settings' byte order, pair-swapped when the stream is |
| Output.AddBytes | src/output/mod.rs:133-136 | without `overwrite` a run that shares an address with a placed run is refused; otherwise the run is placed last |
| Output.ByteAtAfterAdd | src/output/mod.rs:133-136 | a run placed last is what the image holds at each of its addresses, and nothing else changes |
| Output.SaturatingEnd | src/output/mod.rs:138 | the end is the sum, or the largest `usize` when the sum passes it (also line 142) |
| Output.ChooseWidth | src/output/mod.rs:148-168 | Intel HEX is 16-bit up to 0x10000 and 32-bit above; S-record is 16, 24 or 32-bit up to 0x10000, 0x1000000 and above |
| Output.WidthIsNarrowestThatReaches | src/output/mod.rs:148-168 | the chosen width reaches the highest end and no narrower width of the format does |
| Output.AddRangesTracksMaxEnd | src/output/mod.rs:132-146 | `max_end` is at least every range's payload end and CRC end, and is one of them (or 0) |
| Output.SingleRangeIsPlaced | src/output/mod.rs:132-146 | a single range is always placed, its payload first and then its CRC with overwrite |
| Output.CrcOverwritesPayload | src/output/mod.rs:133-136 | in one range's image each CRC byte is at its address, every other payload byte at its own, and nothing else is placed |
| Output.SettingsCrc | src/output/mod.rs:95 | the CRC function used is the corrected `calculate_crc` under the block's CRC settings |
| Output.AssembleRejects | src/output/mod.rs:69-81 | a payload longer than the block is refused with the vector untouched; a failing CRC location is refused after the swap |
| Output.FinishedLayout | src/output/mod.rs:83-108 | the vector keeps the payload as prefix and padding after it; a keyword location resizes it to the CRC offset; the `block` area or `pad_to_end` makes it the block's length; the `block` area zeroes the CRC's 4 bytes; an address location with neither leaves the payload alone |
| Output.AssembleIsPlaced | src/output/mod.rs:69-121 | once the offset validates, the assembly is the placement of the (swapped) payload at that offset |
| Output.PlacedEmission | src/output/mod.rs:94-119 | the vector goes to `start_address + virtual_offset`, and the CRC of the CRC region, in the settings' byte order, goes over it at that address plus the CRC offset |
| Output.PadToEndExamples | src/output/mod.rs:213-270 | without `pad_to_end` a 4-byte payload in a 16-byte block stays 4 bytes with the CRC at offset 4; with it a 32-byte block fills the vector to 32 bytes |
| Output.EmitHex | src/output/mod.rs:123-175 | the range loop places every range and its CRC and tracks `max_end` as the specification `Emitted` does, then chooses the width |
| Output.ShapeCrcRegion | src/output/mod.rs:83-92 | the in-place resize and zero fill leave the vector equal to the CRC region |
| Output.EncodeCrc | src/output/mod.rs:94-103 | the CRC bytes are those of the settings' CRC over the region |
| Output.PlaceStream | src/output/mod.rs:83-121 | after validation the vector and the result are those of the placement specification |
| Output.BytestreamToHexString | src/output/mod.rs:60-121 | the vector after the call and the result are those of the specification `Assemble` |
| Hex.CrcOffset | src/hex.rs:42-71 | an address before the block start, one inside the payload and a keyword other than "end" are each refused; an address at or after the payload (its offset from the start), and "end" (the payload length itself), are accepted exactly when the 4 CRC bytes fit in the block, and otherwise refused with the overrun error |
| Hex.CrcOffsetAsWritten | src/hex.rs:42-71 | the same check with `crc_offset + 4` wrapping modulo 2^32; its result is below 2^32 |
| Hex.AsWrittenDiffersOnlyByWrap | src/hex.rs:67 | the as-written check agrees wherever the exact one accepts, and otherwise differs only by accepting an overrun |
| Hex.WrappedOverrunPasses | src/hex.rs:67 | as written, a CRC address at 0xFFFFFFFE in a 16-byte block at 0 passes the overrun check, which the exact check refuses |
| Hex.Splice | src/hex.rs:74 | `copy_from_slice` keeps the length and puts the data at its position, every other byte unchanged |
| Hex.BlockLayout | src/hex.rs:73-74 | the block is as long as the header says, holds the payload first, the CRC at its offset and padding everywhere else |
| Hex.RecordsAreWellFormed | src/hex.rs:80-107 | every data record holds 1 to `record_width` bytes and stays inside its 64 KiB segment, every extended linear address is non-zero and fits 16 bits, and the end-of-file record comes last and only there |
| Hex.LoadedFront | src/hex.rs:87-101 | to a reader a data record is its bytes at the upper half in force times 64 KiB plus its offset, and an extended linear address record changes the upper half |
| Hex.RecordsStep | src/hex.rs:86-105 | one turn of the loop emits the announcement when the upper half changes and is non-zero, one data record of the shortest of the rest, the width and the segment's remainder, then continues after it |
| Hex.LoadedStep | src/hex.rs:86-105 | read back, one turn of the loop yields one segment at the current address holding the next chunk of the stream |
| Hex.RecordsAtEnd | src/hex.rs:86 | at the end of the stream only the end-of-file record is left, and a reader finds no data in it (also line 107) |
| Hex.ReadsBackStep | src/hex.rs:86-105 | the round trip holds from a position once it holds from the position after that turn of the loop |
| Hex.RecordsRoundTrip | src/hex.rs:80-107 | read back, the records hold the stream from the current index on, contiguously from the current address, as long as it does not run past 2^32 |
| Hex.AssembleIsBlock | src/hex.rs:21-77 | a payload that fits with a valid CRC offset gives the padded block in the vector and the records of that block from `start_address + offset` |
| Hex.AssembledBuffer | src/hex.rs:21-74 | after a successful call the vector is the block's length, starts with the (swapped) payload, holds at the CRC offset the CRC of that payload alone, and padding everywhere else |
| Hex.AssembledRecords | src/hex.rs:73-111 | the records of a successful call, read back, hold the whole vector contiguously from `start_address + offset` |
| Hex.EmitHex | src/hex.rs:80-107 | the loop emits exactly the records of the specification `Records` from the start address |
| Hex.EmitChunk | src/hex.rs:87-104 | one turn of the loop: its records followed by those from the next position are those from this one; index and address advance |
| Hex.BytestreamToHexString | src/hex.rs:13-78 | the vector after the call and the result are those of the specification `Assemble`: the length check, the swap, the CRC offset, the block and its records |
| Stats.TotalsWithinAllocation | src/commands/stats.rs:38-43 | when no block uses more than it was allocated, the total used is at most the total allocated |
| Stats.Efficiency | src/commands/stats.rs:45-51 | 0 when nothing is allocated, otherwise the used bytes as a percentage of the allocated bytes |
| Stats.EfficiencyBounds | src/commands/stats.rs:45-51 | the efficiency is between 0 and 100 when used is within the allocation, and 100 when every allocated byte is used |
| Stats.BuildStats.constructor | src/commands/stats.rs:28-36 | a new record has no blocks and zero counts and totals |
| Stats.BuildStats.AddBlock | src/commands/stats.rs:38-43 | the block count goes up by one, its sizes are added to the totals, and it is appended to the list; the totals stay the sums over the list |
| Stats.BuildStats.SpaceEfficiency | src/commands/stats.rs:45-51 | 0 when nothing is allocated, otherwise 100 times used over allocated |
| Stats.StatisticsExamples | tests/statistics.rs:1-172 | an empty build is 0 %, a fully used block 100 %, and blocks of 100 and 200 bytes using 80 and 120 total 300 and 200 |
| Formatters.DigitChar | src/visuals/formatters.rs:2 | a digit below 10 becomes the decimal digit character of that value |
| Formatters.Decimal | src/visuals/formatters.rs:2 | `to_string` gives at least one decimal digit, with no leading zero unless the number is 0 |
| Formatters.DecimalRoundTrip | src/visuals/formatters.rs:2 | reading the decimal text back gives the number |
| Formatters.FormatBytes | src/visuals/formatters.rs:1-11 | the loop over the reversed digits, reversed back with " bytes" appended, is the grouped decimal text |
| Formatters.GroupShift | src/visuals/formatters.rs:4-9 | three positions on, the loop does what it does on the string with its first three characters removed |
| Formatters.ShortGroup | src/visuals/formatters.rs:4-9 | up to three characters get no separator |
| Formatters.GroupAtThree | src/visuals/formatters.rs:5-7 | at the fourth character the loop writes a comma and then what it writes for the rest |
| Formatters.GroupFront | src/visuals/formatters.rs:4-9 | the first three characters, a comma, then the rest |
| Formatters.GroupPlain | src/visuals/formatters.rs:4-9 | a position not at a multiple of 3 after the first emits only its character |
| Formatters.GroupComma | src/visuals/formatters.rs:5-8 | a position at a positive multiple of 3 emits a comma and then its character |
| Formatters.GroupsOfThree | src/visuals/formatters.rs:1-11 | up to three digits stand alone; longer runs are the grouping of all but the last three, a comma and those three |
| Formatters.GroupedStrips | src/visuals/formatters.rs:4-10 | removing the separators gives the digits back |
| Formatters.GroupedCommaCount | src/visuals/formatters.rs:4-10 | a run of n digits gets (n - 1) / 3 separators |
| Formatters.GroupedLeadsWithDigit | src/visuals/formatters.rs:4-10 | the grouped text never starts with a separator |
| Formatters.FormatBytesReadsBack | src/visuals/formatters.rs:1-11 | the text ends in " bytes"; before that, without its commas it is the decimal digits, which read back as the count; it has (digits - 1) / 3 commas and none first |
| Formatters.GroupedSevenDigits | src/visuals/formatters.rs:1-11 | seven digits are grouped 1,234,567 |
| Formatters.HexDigit | src/visuals/formatters.rs:15 | a digit below 16 becomes an upper-case hexadecimal digit |
| Formatters.HexDigits | src/visuals/formatters.rs:15 | exactly k upper-case hexadecimal digits |
| Formatters.HexRoundTrip | src/visuals/formatters.rs:15 | k digits of a number below 16^k read back as the number |
| Formatters.Hex8 | src/visuals/formatters.rs:15 | `{:08X}` is exactly eight characters |
| Formatters.FormatAddressRange | src/visuals/formatters.rs:13-16 | the range text is 21 characters long for every start and allocation whose `start + allocated - 1` stays within `u32`, an empty range after a non-zero start included |
| Formatters.AddressRangeReadsBack | src/printer.rs:87-90 | the text is `0x`, eight upper-case digits of the start, `-0x`, and eight of `start + allocated - 1`, each reading back as that address |
| Formatters.FormatEfficiency | src/printer.rs:92-98 | exactly "0.0%" when nothing is allocated (and only then), otherwise the used share of the allocation in percent |
| Writer.NameParts | src/writer.rs:7-14 | the prefix if it is not empty, the block's name, the suffix if it is not empty, in that order |
| Writer.OutFilename | src/writer.rs:7-19 | the name is the parts joined by `_` with the format's extension |
| Writer.FileNameShapes | src/writer.rs:7-19 | the name is `PRE_` (only with a prefix), the block's name, `_SUF` (only with a suffix), a dot and `hex` or `mot` |
| Writer.FileNameEnds | src/writer.rs:7-19 | the name starts with the prefix's first character or the block's, and ends before the dot with the suffix's last character or the block's: the joining adds no stray `_` |
| Writer.WriteOutput | src/writer.rs:6-24 | the call succeeds exactly when the write does, and a failed write becomes a `FileError` naming the block and the cause |
| BlockArgs.Split | src/layout/args.rs:11 | `split('@')` gives one more piece than there are `@`, none of them holding an `@`, and joining them with `@` gives the text back |
| BlockArgs.SplitJoin | src/layout/args.rs:11 | splitting `@`-free pieces joined by `@` gives the pieces back |
| BlockArgs.SplitCons | src/layout/args.rs:11 | an `@`-free prefix and an `@` split off as the first piece |
| BlockArgs.ParseBlockArg | src/layout/args.rs:10-24 | accepted exactly when the argument holds one `@`; then it is `name@file` with both parts free of `@` (either may be empty); otherwise `InvalidBlockArgument` with "Failed to unpack block" and the argument |
| BlockArgs.ParseBlockArgRoundTrip | src/layout/args.rs:10-24 | a name and a file free of `@`, written `name@file`, parse back to themselves |
| LayoutBlock.LeafEmitter | src/layout/block.rs:85 | the builder's leaf emitter is the leaf's `emit_bytes` with the build's data sheet and settings |
| LayoutBlock.AlignPad | src/layout/block.rs:79-83 | the padding is below the alignment, ends on a multiple of it, and no earlier offset is one |
| LayoutBlock.AlignPadIsFirstBoundary | src/layout/block.rs:79-83 | `(w - offset % w) % w` is the distance to the first multiple of `w` at or after the offset |
| LayoutBlock.InFieldOf | src/layout/block.rs:101-104 | a failure inside a field becomes `InField` naming the field and holding the failure; success is untouched |
| LayoutBlock.LeafStartsAligned | src/layout/block.rs:77-88 | a leaf starts at the first multiple of its alignment at or after the offset, with only padding before it |
| LayoutBlock.BuildIsPackedPlusPadding | src/layout/block.rs:66-110 | alignment only adds padding: the layout fails exactly when the leaves fail, with the same error, and is as long as the packed leaves plus the padding counted |
| LayoutBlock.FieldsArePackedPlusPadding | src/layout/block.rs:89-106 | the same for the fields of a branch, each starting where the previous one ended |
| LayoutBlock.BytesNeedNoPadding | src/layout/block.rs:66-110 | a tree of one-byte leaves is laid out as its packed leaves with no padding |
| LayoutBlock.FieldsNeedNoPadding | src/layout/block.rs:89-106 | the same for the fields of a branch |
| LayoutBlock.Stream | src/layout/block.rs:33-64 | for a keyword CRC location the stream is padded to a multiple of 4 bytes |
| LayoutBlock.StreamCountsPadding | src/layout/block.rs:33-64 | the padding count is exactly the bytes that are not leaf data, and the build fails exactly when a leaf does, with its error |
| LayoutBlock.ThenNothing | src/layout/block.rs:89-106 | nothing written yet followed by the fields is the fields |
| LayoutBlock.FieldStep | src/layout/block.rs:90-105 | one turn of the field loop moves one field's bytes and padding into what is written, and continues after it |
| LayoutBlock.Builder.constructor | src/layout/block.rs:39-41 | an empty buffer, offset 0 and no padding counted |
| LayoutBlock.Builder.Align | src/layout/block.rs:79-83 | the alignment loop appends exactly `AlignPad` padding bytes and counts them |
| LayoutBlock.Builder.Inner | src/layout/block.rs:66-110 | `build_bytestream_inner` fails exactly when the specification `Build` does, with its error, and otherwise appends its bytes, advances the offset by them and adds its padding count |
| LayoutBlock.Builder.Fields | src/layout/block.rs:89-106 | the field loop does what `BuildFields` says |
| LayoutBlock.BuildStream | src/layout/block.rs:33-64 | the builder's result is the specification `Stream` |
| LayoutBlock.BuildBytestream | src/layout/block.rs:33-64 | `build_bytestream` with the data sheet, settings and strict switch is `Stream` with their leaf emitter |
| Conversions.ExtractUint | src/layout/conversions.rs:8-13 | accepted exactly for an integer in the `u32` range, which is the result; otherwise the caller's error |
| Conversions.ExtractDatavalue | src/layout/conversions.rs:15-26 | a non-table or a table without `type` is `BadDataValueExtraction`; a result is the one value the table's `type` and `value` give |
| Conversions.ExtractTable | src/layout/conversions.rs:28-33 | accepted exactly for a table, which is the result; otherwise the caller's error |
| Conversions.ExtractString | src/layout/conversions.rs:35-40 | accepted exactly for a string, which is the result; otherwise the caller's error |
| Conversions.ExtractCrcLocation | src/layout/conversions.rs:42-58 | "start" and "end" are keywords, any other string is refused, an integer is an address exactly when it fits a `u32`, anything else is refused with the caller's error |
| Conversions.CrcAddressIsExtractedUint | src/layout/conversions.rs:8-13 | an address location accepts the same integers as `extract_uint` and with the same value (also lines 52-55) |
| LayoutEntry.LeafEntry.Alignment | src/layout/entry.rs:85-87 | a leaf is aligned to its scalar width, which is at least 1 (also lines 282-289) |
| LayoutEntry.Resolve | src/layout/entry.rs:62-71 | accepted exactly when not both `size` and `SIZE` are given; the size is whichever is given, strict exactly when it is `SIZE` |
| LayoutEntry.Exported | src/layout/entry.rs:120-123 | a conversion failure becomes the layout's export failure with the same reason; success passes through |
| LayoutEntry.FromSheet | src/layout/entry.rs:119 | a data-sheet failure is carried as it is; success passes through (also lines 154, 220) |
| LayoutEntry.EmitSingle | src/layout/entry.rs:106-129 | a success is one element of the leaf's width; a named value without a data sheet is `MissingDataSheet`; a sheet value or a single literal is converted to the leaf's type; an array literal is refused |
| LayoutEntry.SourceBytes1D | src/layout/entry.rs:154-186 | a string is its UTF-8 bytes and only for `u8`; an array is its values converted one after another, one element width each |
| LayoutEntry.Source1D | src/layout/entry.rs:146-154 | the literal, `MissingDataSheet` without a data sheet, or the sheet's one-dimensional array or string under the name |
| LayoutEntry.Data1D | src/layout/entry.rs:146-187 | the source's failure, or the bytes of the source |
| LayoutEntry.Shape1D | src/layout/entry.rs:189-202 | accepted exactly when the data is no longer than the total and, under `SIZE`, exactly as long; then it is the data followed by padding up to the total; each refusal carries its message |
| LayoutEntry.Emit1D | src/layout/entry.rs:131-203 | a byte count of 2^64 or more is refused as an overflow first; a success is exactly `size` elements long |
| LayoutEntry.Emit1DShapesData | src/layout/entry.rs:131-203 | below the overflow bound, the leaf is its data shaped to the declared size, or the failure to read that data |
| LayoutEntry.ReadSource1D | src/layout/entry.rs:146-154 | the lookup is the specification `Source1D` (also lines 174, 179) |
| LayoutEntry.ConvertSource1D | src/layout/entry.rs:155-186 | the conversion loop is the specification `SourceBytes1D` |
| LayoutEntry.ShapeData | src/layout/entry.rs:189-202 | the checks and the padding loop are the specification `Shape1D` |
| LayoutEntry.EmitBytes1D | src/layout/entry.rs:131-203 | `emit_bytes_1d` is the specification `Emit1D` |
| LayoutEntry.StringLeafIsPaddedUtf8 | src/layout/entry.rs:179-202 | a string literal for a `u8` array is its UTF-8 bytes followed by padding to the size, and is refused when longer |
| LayoutEntry.StringNeedsU8 | src/layout/entry.rs:179-184 | a string for any type but `u8` is refused before its length is looked at |
| LayoutEntry.Shape2D | src/layout/entry.rs:222-271 | a success is exactly rows times columns elements long |
| LayoutEntry.Write2D | src/layout/entry.rs:256-269 | a success whose values fit is exactly the total long |
| LayoutEntry.Shape2DChecks | src/layout/entry.rs:226-254 | the checks in the source's order: element count overflow, byte count overflow, a row of the wrong width, too many rows, and under `SIZE` too few; a success passed them all |
| LayoutEntry.Shape2DLayout | src/layout/entry.rs:256-271 | a rectangle that passes is its values row by row, then padding up to rows times columns elements |
| LayoutEntry.Emit2D | src/layout/entry.rs:205-277 | a literal is refused, a name without a data sheet is `MissingDataSheet`, and a success is rows times columns elements long |
| LayoutEntry.Emit2DShapesSheet | src/layout/entry.rs:213-272 | a named leaf is the sheet's rectangle shaped to the declared size, or the sheet's failure to give one |
| LayoutEntry.WriteRows | src/layout/entry.rs:256-269 | the row and value loops and the padding loop are the specification `Write2D` |
| LayoutEntry.ShapeRows | src/layout/entry.rs:222-271 | the checks and loops are the specification `Shape2D` |
| LayoutEntry.EmitBytes2D | src/layout/entry.rs:205-277 | `emit_bytes_2d` is the specification `Emit2D` |
| LayoutEntry.Emit | src/layout/entry.rs:89-104 | a size-key clash is refused; no size emits a single value, a count the one-dimensional form, a pair the two-dimensional form, strict under `SIZE` |
| LayoutEntry.EmitIsWholeElements | src/layout/entry.rs:89-104 | whatever a leaf emits is a whole number of elements of its type |
| LayoutEntry.EmitBytes | src/layout/entry.rs:89-104 | `emit_bytes` is the specification `Emit` |
| Primitives.ScalarType.SizeBytes | src/schema.rs:147-157 | 1 byte for `u8`/`i8`, 2 for `u16`/`i16`, 4 for `u32`/`i32`/`f32`, 8 for `u64`/`i64`/`f64`, and no other width |
| Primitives.ParseTypeName | src/layout/types.rs:73-85 | a name is recognised exactly when it is one of the ten type names, and then denotes the type of that name |
| Primitives.Cast | src/schema.rs:197 | `v as T` between integer types is the value in T's range that is congruent to v modulo 2^width (also line 205) |
| Primitives.CastUnique | src/schema.rs:197 | that value is the only one in range congruent to v (also line 205) |
| Primitives.CastOfInRange | src/schema.rs:197 | a value already in range is unchanged by the cast (also line 205) |
| Primitives.CastCongruent | src/schema.rs:197 | the cast depends only on v modulo 2^width (also line 205) |
| Primitives.LeByteIsShift | src/layout/settings.rs:53 | byte i of `to_le_bytes` is `(v >> 8i) & 0xFF` |
| Primitives.FromLeOfLeBytes | src/layout/settings.rs:53 | reading the little-endian image back gives v modulo 256^n |
| Primitives.LeBytesOfFromLe | src/layout/settings.rs:53 | encoding a byte string's value gives the byte string back |
| Primitives.LeBytesCongruent | src/layout/settings.rs:53 | values congruent modulo 256^n have the same n-byte image |
| Primitives.CastKeepsLowBytes | src/schema.rs:197 | narrowing keeps exactly the low bytes: the cast value and the original have the same image (also line 205) |
| Primitives.SaturatingCast | src/schema.rs:211 | `f as T` for a finite float lands in T's range: the truncated value when it fits, otherwise the bound it passed |
| Primitives.TruncateTowardZero | src/schema.rs:211 | the integer part rounds toward zero: within 1 below a non-negative value, within 1 above a negative one |
| Schema.FloatCheck | src/schema.rs:472-490 | a finite value passes exactly when it lies in [min, max] and has no fractional part; it is out of range exactly when outside the bounds |
| Schema.FloatToInt | src/schema.rs:207-211 | the float branch of `to_u8` … `to_i64` yields a value in the type's range or an export failure |
| Schema.ToInt | src/schema.rs:189-413 | the result is in the type's range; under `strict` an integer is refused exactly when it is out of range, "too large" for an unsigned source and "out of range" for a signed one; a string is refused |
| Schema.ToIntAsWritten | src/schema.rs:292 | the same conversion with the strict float bound `T::MAX as f64`; its result is still in range (also line 405) |
| Schema.LossyIntegerKeepsLowBits | src/schema.rs:189-413 | without `strict` an integer always converts, to the value congruent to it modulo 2^width, with the same low bytes |
| Schema.SameWidthIsIdentity | src/schema.rs:281 | an unsigned value to `u64` and a signed one to `i64` never fail and change nothing (also line 402) |
| Schema.StrictConversionPreservesValue | src/schema.rs:189-413 | a strict conversion that succeeds keeps the numeric value, from an integer or a float |
| Schema.StrictFloatBoundLetsOverflowThrough | src/schema.rs:292 | as written, strict `u64` lets 2^64 through and `i64` lets 2^63 through, saturating them; the exact bound refuses both (also line 405) |
| Schema.ToFloat | src/schema.rs:415-470 | `to_f32`/`to_f64` succeed exactly for a number, except a strict float outside the `f32` range for `f32`; an integer gives its own value, a float itself, before rounding |
| Schema.IntegerToFloatNeverFails | src/schema.rs:415-432 | no integer is out of range for `f32`, so an integer source always converts, whatever the operator grouping of the signed check (also lines 456-457) |
| Schema.ToBytes | src/schema.rs:160-178 | a success is exactly one element of the type's width; a string is refused |
| Schema.ToBytesBigIsReversedLittle | src/schema.rs:160-178 | both byte orders succeed or fail together, and the big-endian bytes are the little-endian ones reversed (also lines 493-509) |
| Schema.StringToBytes | src/schema.rs:180-187 | a string value gives its UTF-8 bytes, anything else "String expected" |
| Schema.LossyCast | src/schema.rs:513-531 | `try_from` fails only for a string, and gives a value of the type's width |
| Schema.NonStrictIsLossyCast | src/schema.rs:160-178 | the non-strict conversion and the lossy `try_from` lay out the same bytes (also lines 513-531) |
| Schema.LeafEntry.Alignment | src/emit.rs:7-9 | a leaf of the older pipeline is aligned to its scalar width |
| LayoutSettings.FromTable | src/layout/settings.rs:3-13 | an absent `virtual_offset` is 0, an absent `byte_swap` or `pad_to_end` is false, and present keys are taken as written (also lines 40-42) |
| LayoutSettings.Primitive.Width | src/layout/settings.rs:60 | the width of each primitive type: 1, 2, 4 or 8 bytes |
| LayoutSettings.ToEndianBytes | src/layout/settings.rs:48-60 | the image is exactly the type's width |
| LayoutSettings.BigIsReversedLittle | src/layout/settings.rs:52-55 | `to_be_bytes` is `to_le_bytes` reversed, and the two agree on one-byte values |
| LayoutSettings.EndianByteIsShift | src/layout/settings.rs:52-55 | little-endian byte i is `(bits >> 8i) & 0xFF`, big-endian byte i is little-endian byte `width - 1 - i` |
| LayoutSettings.ToEndianBytesRoundTrip | src/layout/settings.rs:52-55 | read back in the same order the bytes give the value's bits, and a signed integer its own value |
| LayoutSettings.IntRoundTrip | src/layout/settings.rs:53 | an in-range integer is recovered from its little-endian image read back as the same type |
| LayoutTypes.ParseUint | src/layout/types.rs:88-95 | accepted exactly for a non-negative integer, which is the result; otherwise `InvalidCell` |
| LayoutTypes.ParseInt | src/layout/types.rs:97-102 | accepted exactly for an integer, which is the result; anything else is `InvalidCell` |
| LayoutTypes.ParseFloat | src/layout/types.rs:104-110 | a float is returned as it is, an integer as the nearest double, anything else is `InvalidCell` |
| LayoutTypes.FromTomlCell | src/layout/types.rs:72-86 | an unknown type name is `InvalidCell`; a result has the named type's width; an unsigned type needs a non-negative integer, a signed type any integer, and the value is narrowed with `as` |
| LayoutTypes.ToBytesExamples | src/layout/types.rs:244-259 | `0x12345678` as `u32` is `78 56 34 12` little-endian and `12 34 56 78` big-endian; `0xFF` as `u8` is `FF` in both |
| LayoutTypes.FromBytes | src/layout/types.rs:129-137 | accepted exactly for 1, 2, 4 and 8, and `as_bytes` gives the count back; otherwise `InvalidUnitSize` |
| LayoutTypes.AsBytes | src/layout/types.rs:139-141 | a unit is 1, 2, 4 or 8 bytes |
| LayoutTypes.FromBytesOfAsBytes | src/layout/types.rs:129-141 | `from_bytes(as_bytes(u))` is u |
| LayoutTypes.AlignSize | src/layout/types.rs:143-146 | the size rounded up is a multiple of the unit, at least the size and less than a unit above it |
| LayoutTypes.AlignSizeIsLeast | src/layout/types.rs:143-146 | no smaller multiple of the unit holds the size |
| LayoutTypes.TypeSpecFromValue | src/layout/types.rs:159-168 | a string names a simple type; anything else, arrays included, is `InvalidCell` |
| LayoutTypes.ExtractDatavalues | src/layout/types.rs:170-185 | only a simple type succeeds, with one value: the entry's `value` read as that type; a missing `value` is `InvalidCell` |
| LegacyEmit.EmitSingle | src/emit.rs:30-45 | a success is one element of the leaf's width; a lookup failure is passed on; an array literal is refused |
| LegacyEmit.SourceBytes | src/emit.rs:56-75 | a string is its UTF-8 bytes, whatever the leaf's type; any other single value is refused; an array is its values' bytes, one element width each |
| LegacyEmit.Data1D | src/emit.rs:56-75 | the literal's bytes, or the sheet's one-dimensional value's bytes, or the sheet's failure |
| LegacyEmit.Emit1D | src/emit.rs:47-86 | a success is exactly `size` elements long |
| LegacyEmit.Emit1DLayout | src/emit.rs:47-86 | the leaf is its data followed by padding, and fails exactly when the data fails or is longer than `size` elements |
| LegacyEmit.ReadData1D | src/emit.rs:56-75 | the lookup and conversion loops are the specification `Data1D` |
| LegacyEmit.EmitBytes1D | src/emit.rs:47-86 | `emit_bytes_1d` with its padding loop is the specification `Emit1D` |
| LegacyEmit.Shape2D | src/emit.rs:99-127 | a success is exactly rows times columns elements long |
| LegacyEmit.Shape2DLayout | src/emit.rs:99-127 | a row of the wrong width, then too many rows, are refused in that order; a rectangle that passes is its values row by row, then padding |
| LegacyEmit.Emit2D | src/emit.rs:88-135 | a literal is refused; a lookup failure is passed on; otherwise the rectangle is shaped to rows times columns elements |
| LegacyEmit.ShapeRows | src/emit.rs:99-127 | the checks and loops are the specification `Shape2D` |
| LegacyEmit.EmitBytes2D | src/emit.rs:88-135 | `emit_bytes_2d` is the specification `Emit2D` |
| LegacyEmit.Emit | src/emit.rs:11-28 | no size emits a single value, a count the one-dimensional form, a pair the two-dimensional form |
| LegacyEmit.EmitIsWholeElements | src/emit.rs:11-28 | whatever a leaf emits is a whole number of elements of its type |
| LegacyEmit.EmitBytes | src/emit.rs:11-28 | `emit_bytes` is the specification `Emit` |
| LegacyEmit.LiteralArraysAgree | src/emit.rs:67-85 | a literal array under `size` emits the same bytes, and fails for the same reason, in the older and the later emitter |
| LegacyEmit.StringForAnyType | src/emit.rs:72-84 | the older emitter writes a string into a leaf of any type, padded to its size, where the later one refuses it for anything but `u8` |
| LegacyLayout.LeafEmitter | src/layout.rs:35 | the leaf emitter is the leaf's `emit_bytes` with the data sheet, byte order and padding byte |
| LegacyLayout.Leaves | src/layout.rs:33-46 | a leaf's leaves are itself |
| LegacyLayout.EmitAllAppend | src/layout.rs:39-45 | emitting two runs of leaves one after the other is emitting their concatenation; the first failure wins |
| LegacyLayout.ConcatIsLeavesInOrder | src/layout.rs:25-48 | the block is its leaves' bytes in depth-first field order and nothing else: no padding, no reordering |
| LegacyLayout.FieldsAreLeavesInOrder | src/layout.rs:39-45 | the same for the fields of a branch from the i-th on |
| LegacyLayout.Buffer.constructor | src/layout.rs:11-12 | an empty buffer at offset 0 |
| LegacyLayout.Buffer.Inner | src/layout.rs:25-48 | `build_bytestream_inner` fails exactly when `Concat` does, and otherwise appends its bytes and advances the offset by them |
| LegacyLayout.Buffer.Fields | src/layout.rs:39-45 | the field loop does what `ConcatFields` says |
| LegacyLayout.BuildBytestream | src/layout.rs:6-23 | `build_bytestream` is the specification `Concat` with the block's leaf emitter |
| ValueBytes.ValuesBytes | src/emit.rs:62-64 | the values converted one after another are one element width each, and a failure is an export failure |
| ValueBytes.ValuesBytesOk | src/emit.rs:62-64 | the run converts exactly when every value in it converts |
| ValueBytes.ValuesBytesAt | src/emit.rs:62-64 | the value at position i is written at `i * width`, as its own conversion gives it |
| ValueBytes.ValuesBytesAppend | src/emit.rs:62-64 | converting two runs one after the other is converting their concatenation |
| ValueBytes.AppendValues | src/emit.rs:62-64 | the loop extends `out` with the bytes of every value and stops at the first that does not convert |
| ValueBytes.AllRowsHave | src/emit.rs:104 | the column check is true exactly when every row has `cols` values |
| ValueBytes.Size2D | src/emit.rs:102-114 | a rectangle no taller than `rows` has `rows * cols` values at most |
| ValueBytes.RowMajor | src/emit.rs:117-121 | the value in row i and column j is written at element `i * cols + j` |
| ValueBytes.RowsBytesFlatten | src/emit.rs:117-121 | converting row after row is converting the flattened rows in one run |
| ValueBytes.AppendRow | src/emit.rs:118-120 | one pass of the row loop appends row i's values |
| ValueBytes.AppendRows | src/emit.rs:117-121 | the row loop gives the values of the flattened rows |
| ValueBytes.Padded | src/emit.rs:82-84 | the result is `out` followed by padding up to `total` bytes, or `out` itself when it is already that long |
| ValueBytes.PaddedIsFill | src/emit.rs:82-84 | data no longer than `total` is padded with exactly the bytes it lacks |
| ValueBytes.PadTo | src/emit.rs:82-84 | the padding loop is the specification `Padded` |
| ConfigValues.AsInteger | src/types.rs:219-224 | a value is read as an integer exactly when it is one, and then gives that integer |
| ConfigValues.AsFloat | src/types.rs:226-232 | a float or an integer is read as a float, a float as itself |
| ConfigValues.AsString | src/types.rs:234-239 | a value is read as a string exactly when it is one |
| ConfigValues.AsBool | src/types.rs:265-270 | a value is read as a boolean exactly when it is one |
| ConfigValues.AsTable | src/types.rs:272-277 | a value is read as a table exactly when it is one, and gives its entries |
| ConfigValues.AsSizeTuple | src/types.rs:241-263 | a size is accepted exactly when it is a list of one or two integers; it gives rows and columns, a single number having zero columns; any other value is `FailedToExtract` |
| ConfigValues.SourceOf | src/types.rs:120-134 | an entry's source is its `value` or its string `name`, and having both or neither is refused |
| ConfigValues.ClassifyEntry | src/types.rs:96-154 | a non-table is refused; a table without `type` is nested; with a string `type` and a valid size and source it is a data entry: no size gives a single entry, `[n]` or `[n, 0]` a string of n, any other size an array; a non-string type is refused |
| ConfigValues.ExportDatavalue | src/types.rs:156-215 | an unknown type name is refused; an integer type accepts exactly an integer and narrows it with `as`; a float type accepts a float or an integer; the result has the named type's width |
| ConfigValues.ExportedIntegerKeepsLowBytes | src/types.rs:156-197 | an exported integer always succeeds and its little-endian bytes are the number's low bytes |
| ConfigValues.I8IsTwosComplementByte | src/types.rs:34-38 | an `i8` is written as its two's-complement byte in either byte order |
| ConfigValues.ExportAgreesWithFromTomlCell | src/types.rs:156-197 | this reader and `from_toml_cell` of the first layout reader agree wherever the latter accepts, and it refuses only negative values for unsigned types |
| Dump.ToJson | src/dump.rs:282-296 | a value is shown as a number of the leaf's type exactly when it is not a string; a string fails |
| Dump.DumpedValueIsWritten | src/dump.rs:282-296 | the number the dump shows is the one whose bytes the non-strict conversion writes |
| Dump.ToJsonAll | src/dump.rs:184-187 | an array converts exactly when none of its values is a string, element for element |
| Dump.ToJsonRows | src/dump.rs:262-269 | rows convert exactly when every row does, each into a list of its values |
| Dump.ConvertAll | src/dump.rs:184-187 | the element loop is the specification `ToJsonAll` |
| Dump.ConvertRows | src/dump.rs:262-269 | the row loop is the specification `ToJsonRows` |
| Dump.ResolveScalar | src/dump.rs:132-150 | a scalar occupies one element with nothing unfilled; an array literal is refused; a sheet failure is passed on |
| Dump.Resolve1DSource | src/dump.rs:162-233 | a string succeeds exactly for `u8` and when its UTF-8 fits; an array exactly when it holds no string and fits in `size`; a success occupies `size` elements, of which the data fills all but `within` bytes |
| Dump.Resolve1D | src/dump.rs:152-234 | a literal is resolved as it stands, a name through the sheet's one-dimensional lookup |
| Dump.ResolveRows | src/dump.rs:245-274 | a row of the wrong width, then too many rows, are refused in that order; a success occupies `rows * cols` elements and the rows given fill all but `within` bytes |
| Dump.Resolve2D | src/dump.rs:236-280 | a literal is refused; a name is resolved through the sheet's two-dimensional lookup |
| Dump.ResolveValue | src/dump.rs:110-114 | a leaf occupies its declared bytes, of which at most all are unfilled |
| Dump.ResolvedSizeIsEmittedSize | src/dump.rs:110-114 | where both succeed, the dump and the byte emitter agree on how many bytes a leaf occupies |
| Dump.WithinIsEmittedPadding | src/dump.rs:152-234 | the `within_bytes` of a one-dimensional leaf are exactly the padding bytes the emitter appends after its data |
| Dump.LeafResolver | src/dump.rs:110-114 | the walk resolves each leaf by its declared shape |
| Dump.LeafResolverDeclares | src/dump.rs:110-114 | that resolver reserves exactly the declared bytes of every leaf |
| Dump.NonZero | src/dump.rs:119-124 | a count is recorded exactly when it is not zero |
| Dump.Record | src/dump.rs:118-127 | a path is recorded exactly when it has padding before or within it, with those counts; other paths keep their entries; the map only ever holds entries that say something |
| Dump.ChildPath | src/dump.rs:75-79 | a top-level field's path is its key, a nested one the parent's path, a dot and the key |
| Dump.ChildPathIsInjective | src/dump.rs:75-79 | sibling fields get distinct paths |
| Dump.WalkEndsAtExtent | src/dump.rs:62-130 | a successful walk ends at the offset the declarations alone fix: alignment padding before each leaf, then its declared bytes, whatever the data |
| Dump.FieldsEndAtExtent | src/dump.rs:72-91 | the same for the fields of a branch from the i-th on |
| Dump.WalkKeepsMeaningful | src/dump.rs:62-130 | the walk only ever records padding entries with a non-zero count |
| Dump.FieldsKeepMeaningful | src/dump.rs:72-91 | the same for the fields of a branch |
| Dump.CrcAlign | src/dump.rs:47-54 | the tail is recorded exactly for a keyword CRC not already on a 4-byte boundary, and reaches that boundary in 1 to 3 bytes |
| Dump.CrcAlignFollowsExtent | src/dump.rs:12-60 | the dump's CRC tail is the distance from the tree's declared extent to the next 4-byte boundary, and its padding map says something at every entry |
| Dump.Dumper.constructor | src/dump.rs:17-18 | the walk starts at offset 0 with no padding recorded |
| Dump.Dumper.WalkEntry | src/dump.rs:62-95 | `walk_entry` returns what `Walk` says and leaves the offset and padding map where it says |
| Dump.Dumper.ResolveLeaf | src/dump.rs:97-130 | `resolve_leaf` does what `WalkLeaf` says |
| Dump.Dumper.WalkBranch | src/dump.rs:72-91 | the field loop does what `WalkFields` says |
| Dump.Dumper.AlignCrc | src/dump.rs:49-50 | the loop stops at the first 4-byte boundary, having counted the bytes to it, and leaves the padding map alone |
| Dump.BuildDump | src/dump.rs:12-60 | `build_dump` is the specification `Dump` |
| Workbook.TrimStart | src/variant/mod.rs:295 | the result is a suffix of the text that starts with a non-whitespace character, and what was cut is all whitespace |
| Workbook.TrimEnd | src/variant/mod.rs:295 | the result is a prefix of the text that ends with a non-whitespace character, and what was cut is all whitespace |
| Workbook.Trim | src/variant/mod.rs:295 | the trimmed text is empty exactly when the text is all whitespace, and otherwise starts and ends with non-whitespace |
| Workbook.CellIsEmpty | src/variant/mod.rs:292-298 | a cell is empty exactly when it holds nothing or only whitespace text |
| Workbook.CellEqAscii | src/variant/mod.rs:285-290 | a cell matches exactly when it is text and its trimmed text equals the target up to ASCII case; so only a text cell whose trimmed text has the target's length can match |
| Workbook.CellEqAsciiRespectsCase | src/variant/mod.rs:285-290 | targets equal up to ASCII case match the same cells |
| Workbook.FirstIndex | src/variant/mod.rs:260-266 | the first row carrying the name, and none exactly when no row does |
| Workbook.FirstUsable | src/variant/mod.rs:268-275 | the first candidate that is present and not skipped, with every earlier one absent or skipped |
| Workbook.Select | src/variant/mod.rs:259-283 | in the first row with the name, the debug cell wins over the variant cell, which wins over the default cell, an absent column or an empty cell passing to the next; an unknown name selects nothing |
| Variant.RetrieveCell | src/variant/mod.rs:259-283 | the selected non-empty cell; an unknown name is "index not found", a known name with nothing selected "data not found" |
| Variant.Wrap | src/variant/mod.rs:127-130 | a failure is wrapped with the name being retrieved; a success passes unchanged |
| Variant.RetrieveSingleValue | src/variant/mod.rs:118-131 | succeeds exactly for an integer or float cell, which becomes an `i64` or `f64` value; a failure names the entry |
| Variant.FirstColumn | src/variant/mod.rs:154-171 | the values are the first cells of the rows in order, up to the first row whose first cell is missing or empty; an unsupported cell before that fails the walk |
| Variant.SheetReference | src/variant/mod.rs:142 | a reference is text starting with `#`, and names the sheet after it |
| Variant.Body | src/variant/mod.rs:154 | the rows below the header row |
| Variant.Text1D | src/variant/mod.rs:141-176 | text without `#` is a string; a reference to an unknown sheet is "sheet not found"; a reference to a known sheet gives an array |
| Variant.Retrieve1D | src/variant/mod.rs:133-183 | a lookup failure, or a non-text cell ("expected string value for 1D array"), is refused wrapped with the entry's name; a text cell gives `Text1D` of its text, wrapped the same way |
| Variant.WalkFirstColumn | src/variant/mod.rs:152-172 | the row loop is the specification `FirstColumn` of the rows below the header |
| Variant.Retrieve1DArrayOrString | src/variant/mod.rs:133-183 | `retrieve_1d_array_or_string` is the specification `Retrieve1D` |
| Variant.Text1DFollowsReference | src/variant/mod.rs:152-172 | value j of a referenced array is the first cell of row j + 1, and the walk stops just before the first row ending the column |
| Variant.Convert2D | src/variant/mod.rs:209-217 | a two-dimensional cell converts only to an `i64` or `f64` value |
| Variant.LeadingNonEmpty | src/variant/mod.rs:223 | the width is the count of leading non-empty header cells: all before it are non-empty and the one at it, if any, is empty |
| Variant.ReadRow | src/variant/mod.rs:237-246 | a full row gives exactly `width` converted values; a missing or empty cell stops the walk; an unsupported cell fails |
| Variant.ReadRows | src/variant/mod.rs:232-248 | every row read gives `width` values, and the walk stops at the first row that ends the table |
| Variant.Text2D | src/variant/mod.rs:193-250 | text without `#` is "must start with '#'", an unknown sheet "sheet not found", an empty sheet "no headers", a header without a leading non-empty cell "zero width"; a success has at least one column and every row has the header's width |
| Variant.Retrieve2D | src/variant/mod.rs:185-257 | a lookup failure, a non-text cell ("expected string value for 2D array"), and text without `#` are refused wrapped with the entry's name; a text cell gives `Text2D` of its text, wrapped the same way |
| Variant.ReadRowCells | src/variant/mod.rs:237-246 | the column loop is the specification `ReadRow` |
| Variant.WalkRows | src/variant/mod.rs:230-250 | the labelled row loop is the specification `ReadRows` of the rows below the header |
| Variant.Retrieve2DArray | src/variant/mod.rs:185-257 | `retrieve_2d_array` is the specification `Retrieve2D` |
| Variant.Text2DRowsHaveWidth | src/variant/mod.rs:219-250 | every row of a table has exactly the header's width of numbers, and that width is at least 1 |
| LegacyVariants.RetrieveCellData | src/variants.rs:86-120 | an unknown name is "index not found for" the name; otherwise the debug, variant or default cell in that order, passing over only truly empty cells, and "data not found for" the name when all are empty |
| LegacyVariants.DebugCellWins | src/variants.rs:95-101 | a present, non-empty debug cell is returned whatever the other columns hold |
| LegacyVariants.WhitespaceCellIsAValueHere | src/variants.rs:97 | a debug cell of only spaces is a value here, while the later reader passes over it to the default |
| VariantsToml.RetrieveCellData | src/variants/mod.rs:139-169 | the debug, variant or default cell in that order, passing over only empty cells; no row or no value is `RowNotFound` |
| VariantsToml.SingleDataToToml | src/variants/mod.rs:171-177 | an integer or float cell becomes that TOML number; anything else is `InvalidCell` |
| VariantsToml.FillNamed | src/variants/mod.rs:106-126 | a named entry with a number cell gets that number as its `value` and no other key changes; a text cell leaves it as it is; a name that is not text is `BadName`, a missing cell `RowNotFound`, any other cell `InvalidCell` |
| VariantsToml.WalkEntry | src/variants/mod.rs:102-134 | a populated entry is left alone; a non-table stops the walk with `BadRecursion`; a table stays a table |
| VariantsToml.WalkFrom | src/variants/mod.rs:102-136 | the walk keeps every key and the order of the entries |
| VariantsToml.WalkList | src/variants/mod.rs:101-137 | the walked table has the same keys in the same order |
| VariantsToml.WalkEntryIdempotent | src/variants/mod.rs:102-134 | walking a successfully walked entry again changes nothing and succeeds |
| VariantsToml.WalkFromIdempotent | src/variants/mod.rs:102-136 | the same for the entries of a table from position i on |
| VariantsToml.WalkListIdempotent | src/variants/mod.rs:101-137 | a successful `walk_data_section` is idempotent: a second walk leaves the table as it is and succeeds |
| VariantsToml.WalkOne | src/variants/mod.rs:103-134 | the loop body does what `WalkEntry` says |
| VariantsToml.WalkDataSection | src/variants/mod.rs:101-137 | `walk_data_section` updates the table in place as `WalkList` says; on a failure the entries already walked keep their new values and the rest are untouched |
| Toml.Get | src/variants/mod.rs:104-110 | a key's value is found exactly when an entry has that key |
| Toml.Insert | src/variants/mod.rs:118 | after the insertion the key maps to the new value, every other key is unchanged, and the table grows only by a new key |
| Output.Stream.constructor | src/output/mod.rs:60-61 | the stream holds the caller's byte vector as given |

## Left out

- Loading a workbook is not modelled. This covers the three `DataSheet::new` constructors in `src/variant/mod.rs`, `src/variants.rs` and `src/variants/mod.rs`, and `calamine` itself. A `Workbook.DataSheet` value stands for the loaded sheet, with its columns and other worksheets.
- `warn_duplicate_names` in `src/variant/helpers.rs` is not modelled. Its only effect is a message on standard error.
- The older emitter and dump call `retrieve_single_value`, `retrieve_1d_array_or_string` and `retrieve_2d_array` on the data sheet of `src/variants.rs`, which does not declare them. These lookups are a `LegacyEmit.Lookups` parameter.
- Writing files is not modelled. `std::fs::write` is the `Writer.FileWriter` parameter, and `Path::join` becomes the (directory, name) pair passed to it.
- Reading layout files is not modelled. This covers `FlashBlock::from_parsed_content` and its macros in `src/layout/mod.rs`, the serde derivations, and TOML parsing. TOML values and tables are the `Toml` datatypes, and a table keeps its entries in order.
- JSON object key order is not modelled. The dump's objects are maps.
- Command-line parsing is not modelled: `src/args.rs` and the argument structs under `src/layout/`, `src/output/` and `src/variant/`. `parse_block_arg` is modelled.
- The command orchestration is not modelled: `src/commands/mod.rs`, `src/commands/generate.rs`, `src/main.rs` and the `rayon` fan-out. The elapsed time in the statistics is not modelled either.
- Console output is not modelled: `print_summary`, `print_detailed` and the tables of `src/printer.rs` and `src/visuals/mod.rs`. Their formatters are modelled.
- IEEE rounding is not computed. A `Primitives.FloatCodec` parameter gives the rounding of a real to the nearest `f32` or `f64` and their bit patterns.
- Floats are finite reals, so NaN and the infinities are not modelled.
- The `{:.1}` text of a non-zero efficiency is not modelled. `Formatters.FormatEfficiency` returns the exact real ratio.
- The text of records is not modelled. `bin_file`'s `to_ihex`/`to_srec` and `ihex::create_object_file_representation` render records as ASCII lines with checksums. The model stops at the records and the memory image with its address width.
- `src/output/mod.rs` calls `calculate_crc` with the data only. Its CRC settings come from configuration code that is not part of this model. The model passes them explicitly as `Output.SettingsCrc` and the `CrcFunction` parameter.
- `src/layout/value.rs` delegates `to_bytes` to `convert_value_to_bytes`, which is not part of this model. `LayoutEntry` uses `Schema.ToBytes` in its place.
- `src/emit.rs` calls `to_bytes` without the `strict` flag that `src/schema.rs` declares. `LegacyEmit` takes the flag as the `strict` field of its `Target` parameter, and `LegacyLayout.BuildBytestream` passes its caller's choice through; the model does not fix a value for it.
- `src/layout/header.rs`, the error enums and the Python schema mirror hold declarations only. They appear as datatypes or not at all.
- Hex.Records: the record chunker of `src/hex.rs` requires `record_width >= 1`; with 0 its loop never ends. Its addresses are taken to fit in 32 bits, as the `u32` address of the source does.
- Hex.EmitHex: requires `record_width >= 1`, for the same reason.
- Hex.BytestreamToHexString: requires `record_width >= 1`, for the same reason.
- Hex.AssembledRecords: stated for blocks that end below 2^32, where the source's `u32` start address does not wrap.
- Output.AssembleIsPlaced: `start_address + virtual_offset` and the CRC address are unbounded sums here. The model does not capture the source's `u32` overflow.
- Output.PlaceStream: the same unbounded sums.
- Formatters.FormatAddressRange: requires `1 <= start + allocated <= 0xFFFFFFFF`, exactly the inputs on which the source's `u32` expression `start + allocated - 1` neither overflows nor underflows. Outside it the source panics in a debug build and wraps in a release build; the model does not describe that text.
- Formatters.AddressRangeReadsBack: the same requirement as `Formatters.FormatAddressRange`.
- Stats.BuildStats.AddBlock: the totals are unbounded. The source's `usize` sums do not overflow for any realistic build.
- LayoutBlock.Builder.Inner: the padding count is unbounded where the source keeps a `u32`.
- LayoutEntry.Emit1D: `usize` is unbounded except for the `checked_mul` of the declared size, which is bounded by 2^64 as on a 64-bit target.
- Checksum.ProcessBytes: computes the corrected non-reflected index placement (`idx << 24`, as the crc crate that `src/output/checksum.rs:3` names does), not line 25 as written. Reflected CRCs agree (`Checksum.AsWrittenAgreesWhenReflected`); non-reflected ones differ, see Findings.
- Checksum.CalculateCrc: returns the corrected `Crc` for the same reason. For CRC-32/MPEG-2 of "123456789" the code as written gives 0x32C0C300 (`Checksum.AsWrittenMissesMpeg2CheckValue`), this member 0x0376E6E7.
- Output.SettingsCrc: is `Checksum.CalculateCrc` under the block's settings, so it carries the corrected non-reflected CRC, not line 25 of `src/output/checksum.rs`.
- Output.EncodeCrc: its CRC bytes are those of the corrected engine; they differ from the source's for non-reflected settings.
- Output.PlaceStream: carries the corrected CRC bytes as well.
- Output.BytestreamToHexString: its new state is `Output.Assemble` under `Output.SettingsCrc`, so its CRC bytes are the corrected engine's for non-reflected settings.
- Schema.ToInt: the strict float bound is exact. The source compares against `u64::MAX as f64` (2^64, line 292) and `i64::MAX as f64` (2^63, line 405), so for the float 2^64 to `u64`, or 2^63 to `i64`, the source gives `Ok(MAX)` where this member refuses; `Schema.ToIntAsWritten` models those lines and the Findings table records the difference.
- Schema.ToBytes: goes through `Schema.ToInt`, so it refuses the same two floats; `LayoutEntry`, `LegacyEmit`, `ValueBytes` and `Dump` inherit this.
- LegacyEmit.Emit1D: `size * size_bytes` (`src/emit.rs:54`, 77, 82) is an unchecked `usize` product, which panics in a debug build and wraps in a release build; here it is unbounded.
- LegacyEmit.Emit2D: `rows * cols * size_bytes` (`src/emit.rs:102`) is the same unchecked product; here it is unbounded.
- Dump.Resolve1D: `size * scalar_size` (`src/dump.rs:160`) is an unchecked `usize` product; here it is unbounded.
- Dump.Resolve2D: the products at `src/dump.rs:248` and 272 are unchecked `usize` products; here they are unbounded.
- The `Err` of `create_object_file_representation` (`src/hex.rs:108-110`) and of `to_ihex`/`to_srec` (`src/output/mod.rs:155-172`) are not modelled: the record text is out of the model, and the argument parser limits `record_width` to 1..=64, where these libraries do not fail.

## Findings

| source | as written | input that shows it | evidently intended | confidence | as-written member | corrected member |
|---|---|---|---|---|---|---|
| src/output/checksum.rs:22-26 | the non-reflected branch indexes with `(crc >> 24) ^ byte` but keeps the 8-round result in the low bits, then shifts the register left, so the index byte never reaches bit 31 and the polynomial is never applied on that path | CRC-32/MPEG-2 (poly 0x04C11DB7, start 0xFFFFFFFF, xor-out 0, no reflection) of "123456789" gives 0x32C0C300 | the catalogue value 0x0376E6E7: the index byte goes into the top byte (`idx << 24`) before the rounds | high, not executed | Checksum.AsWrittenMissesMpeg2CheckValue | Checksum.Crc32Mpeg2CheckValue |
| src/schema.rs:292 | the strict `f64` to `u64` check uses `u64::MAX as f64`, which rounds up to 2^64, so 2^64 passes and the `as` cast saturates it to `u64::MAX`; line 405 does the same for `i64` with 2^63 | the float 2^64 converted strictly to `u64`, and 2^63 to `i64` | a strict conversion refuses any value it cannot represent exactly | high, not executed | Schema.StrictFloatBoundLetsOverflowThrough | Schema.StrictConversionPreservesValue |
| src/output/mod.rs:51 | `crc_offset + 4` (and `length + 3` at line 41) are `u32` sums, which wrap in a release build, so an overrunning CRC passes the check | an address 0xFFFFFFFE in a 16-byte block starting at 0, or `end` after a payload of 0xFFFFFFFD bytes | the overrun error for every offset with `offset + 4 > length` | medium, not executed | Output.WrappedOverrunPasses | Output.ValidateCrcLocation |
| src/hex.rs:67 | `crc_offset + 4` is a `u32` sum, which wraps in a release build, so an overrunning CRC passes the check and the slice at line 74 panics instead of the overrun error | an address 0xFFFFFFFE in a 16-byte block starting at 0 | the overrun error for every offset with `offset + 4 > length` | medium, not executed | Hex.WrappedOverrunPasses | Hex.CrcOffset |
