/** The parameterised, bit-at-a-time CRC-32 engine of output/checksum.rs.

    The register update is a left fold of `ByteStep` over the input bytes.
    In the non-reflected branch the source keeps the index byte in the low
    eight bits of the step register while it shifts left, so bit 31 is never
    set during the eight rounds and the polynomial is never applied. That is
    modelled as written by `ByteStepAsWritten`/`CrcAsWritten`; the engine the
    rest of the model uses, `ByteStep`/`Crc`/`CalculateCrc`, starts the
    non-reflected step from the index byte moved into the top byte, which is
    what reproduces the CRC-32/MPEG-2 check value. */
module Checksum {
  import opened Common
  import opened LayoutSettings

  /** Bit i of x (bit 0 is the least significant). */
  predicate Bit(x: bv32, i: bv32)
    requires i < 32
  {
    (x >> i) & 1 == 1
  }

  /** Exchange the bit groups selected by mask with the groups `shift` places above them. */
  function SwapGroups(x: bv32, mask: bv32, shift: bv32): bv32
    requires shift < 32
  {
    ((x >> shift) & mask) | ((x & mask) << shift)
  }

  /** Group width of swap stage k (1 <= k <= 5): 1, 2, 4, 8, 16 bits. */
  function StageShift(k: nat): (r: bv32)
    requires 1 <= k <= 5
    ensures r < 32
  {
    if k == 1 then 1 else if k == 2 then 2 else if k == 3 then 4 else if k == 4 then 8 else 16
  }

  /** The lower group of every pair swapped at stage k. */
  function StageMask(k: nat): bv32
    requires 1 <= k <= 5
  {
    if k == 1 then 0x5555_5555 else if k == 2 then 0x3333_3333 else if k == 3 then 0x0F0F_0F0F
    else if k == 4 then 0x00FF_00FF else 0x0000_FFFF
  }

  /** Swap stages k down to 1: halves, bytes, nibbles, pairs, single bits. */
  function SwapStages(x: bv32, k: nat): bv32
    requires k <= 5
    decreases k
  {
    if k == 0 then x else SwapStages(SwapGroups(x, StageMask(k), StageShift(k)), k - 1)
  }

  /** Rust's `u32::reverse_bits`: bit i moves to bit 31 - i. */
  function ReverseBits(x: bv32): bv32
  {
    SwapStages(x, 5)
  }

  /** ReverseBits as one straight-line expression of the five stages. */
  lemma ReverseBitsUnfolded(x: bv32)
    ensures ReverseBits(x) ==
      SwapGroups(SwapGroups(SwapGroups(SwapGroups(SwapGroups(x, 0x0000_FFFF, 16), 0x00FF_00FF, 8), 0x0F0F_0F0F, 4), 0x3333_3333, 2), 0x5555_5555, 1)
  {
    assert StageMask(5) == 0x0000_FFFF && StageShift(5) == 16;
    assert StageMask(4) == 0x00FF_00FF && StageShift(4) == 8;
    assert StageMask(3) == 0x0F0F_0F0F && StageShift(3) == 4;
    assert StageMask(2) == 0x3333_3333 && StageShift(2) == 2;
    assert StageMask(1) == 0x5555_5555 && StageShift(1) == 1;
    var x4 := SwapGroups(x, 0x0000_FFFF, 16);
    var x3 := SwapGroups(x4, 0x00FF_00FF, 8);
    var x2 := SwapGroups(x3, 0x0F0F_0F0F, 4);
    var x1 := SwapGroups(x2, 0x3333_3333, 2);
    var x0 := SwapGroups(x1, 0x5555_5555, 1);
    assert SwapStages(x1, 1) == SwapStages(x0, 0) == x0;
    assert SwapStages(x2, 2) == SwapStages(x1, 1);
    assert SwapStages(x3, 3) == SwapStages(x2, 2);
    assert SwapStages(x4, 4) == SwapStages(x3, 3);
    assert SwapStages(x, 5) == SwapStages(x4, 4);
  }

  lemma ReverseBitsMirrors(x: bv32, i: bv32)
    requires i < 32
    ensures Bit(ReverseBits(x), i) == Bit(x, 31 - i)
  {
    ReverseBitsUnfolded(x);
  }

  lemma ReverseBitsInvolution(x: bv32)
    ensures ReverseBits(ReverseBits(x)) == x
  {
    ReverseBitsUnfolded(x);
    ReverseBitsUnfolded(ReverseBits(x));
  }

  /** One shift/xor round of the reflected (LSB-first) register. */
  function RoundReflected(step: bv32, poly: bv32): bv32
  {
    (step >> 1) ^ (if step & 1 == 1 then poly else 0)
  }

  /** One shift/xor round of the non-reflected (MSB-first) register. */
  function RoundForward(step: bv32, poly: bv32): bv32
  {
    (step << 1) ^ (if (step >> 31) & 1 == 1 then poly else 0)
  }

  /** One round in the direction chosen by refIn. */
  function Round(step: bv32, poly: bv32, refIn: bool): bv32
  {
    if refIn then RoundReflected(step, poly) else RoundForward(step, poly)
  }

  /** n rounds in the direction chosen by refIn. */
  function Rounds(step: bv32, poly: bv32, refIn: bool, n: nat): bv32
    decreases n
  {
    if n == 0 then step else Rounds(Round(step, poly, refIn), poly, refIn, n - 1)
  }

  /** The eight rounds applied to each byte, written out. */
  function EightRounds(step: bv32, poly: bv32, refIn: bool): bv32
  {
    Round(Round(Round(Round(Round(Round(Round(Round(step, poly, refIn), poly, refIn), poly, refIn), poly, refIn), poly, refIn), poly, refIn), poly, refIn), poly, refIn)
  }

  lemma EightRoundsAreRounds(step: bv32, poly: bv32, refIn: bool)
    ensures Rounds(step, poly, refIn, 8) == EightRounds(step, poly, refIn)
  {
    var s1 := Round(step, poly, refIn); var s2 := Round(s1, poly, refIn);
    var s3 := Round(s2, poly, refIn); var s4 := Round(s3, poly, refIn);
    var s5 := Round(s4, poly, refIn); var s6 := Round(s5, poly, refIn);
    var s7 := Round(s6, poly, refIn);
    assert Rounds(s7, poly, refIn, 1) == Round(s7, poly, refIn);
    assert Rounds(s6, poly, refIn, 2) == Rounds(s7, poly, refIn, 1);
    assert Rounds(s5, poly, refIn, 3) == Rounds(s6, poly, refIn, 2);
    assert Rounds(s4, poly, refIn, 4) == Rounds(s5, poly, refIn, 3);
    assert Rounds(s3, poly, refIn, 5) == Rounds(s4, poly, refIn, 4);
    assert Rounds(s2, poly, refIn, 6) == Rounds(s3, poly, refIn, 5);
    assert Rounds(s1, poly, refIn, 7) == Rounds(s2, poly, refIn, 6);
  }

  /** The source multiplies the low (or top) bit by the polynomial; for a
      0/1 bit that is a choice between 0 and the polynomial. */
  lemma MaskTimesPoly(bit: bv32, poly: bv32)
    requires bit == 0 || bit == 1
    ensures bit * poly == if bit == 1 then poly else 0
  {
  }

  /** The register and polynomial as used in the loop: reflected when refIn. */
  function InitialRegister(c: CrcData): bv32
  {
    if c.refIn then ReverseBits(c.start) else c.start
  }

  function LoopPolynomial(c: CrcData): bv32
  {
    if c.refIn then ReverseBits(c.polynomial) else c.polynomial
  }

  /** The index byte of one input byte, placed where the rounds expect it:
      the low byte when reflected, the top byte otherwise. */
  function IndexByte(crc: bv32, b: byte, refIn: bool): bv32
  {
    if refIn then (crc ^ b as bv32) & 0xFF
    else (((crc >> 24) ^ b as bv32) & 0xFF) << 24
  }

  /** One input byte: eight rounds on the index byte, combined with the
      shifted register. */
  function ByteStep(crc: bv32, b: byte, poly: bv32, refIn: bool): bv32
  {
    ShiftIn(Rounds(IndexByte(crc, b, refIn), poly, refIn, 8), crc, refIn)
  }

  /** The new register: the step combined with the register shifted by a byte
      away from the index byte. */
  function ShiftIn(step: bv32, crc: bv32, refIn: bool): bv32
  {
    if refIn then step ^ (crc >> 8) else step ^ (crc << 8)
  }

  /** The register after processing data from crc: a left fold of ByteStep. */
  function Fold(crc: bv32, data: seq<byte>, poly: bv32, refIn: bool): bv32
    decreases |data|
  {
    if data == [] then crc else Fold(ByteStep(crc, data[0], poly, refIn), data[1..], poly, refIn)
  }

  /** Reflect the final register iff refIn and refOut differ, then apply xor-out. */
  function Finalise(c: CrcData, reg: bv32): bv32
  {
    OutputReflection(c, reg) ^ c.xorOut
  }

  /** The final register, bit-reversed iff refIn and refOut differ. */
  function OutputReflection(c: CrcData, reg: bv32): bv32
  {
    if c.refIn != c.refOut then ReverseBits(reg) else reg
  }

  /** The CRC of data under the parameters c. */
  function Crc(c: CrcData, data: seq<byte>): bv32
  {
    Finalise(c, Fold(InitialRegister(c), data, LoopPolynomial(c), c.refIn))
  }

  /** Processing a ++ b is processing b from the state reached after a. */
  lemma {:induction false} FoldAppend(crc: bv32, a: seq<byte>, b: seq<byte>, poly: bv32, refIn: bool)
    ensures Fold(crc, a + b, poly, refIn) == Fold(Fold(crc, a, poly, refIn), b, poly, refIn)
    decreases |a|
  {
    if a == [] {
      assert a + b == b;
    } else {
      assert (a + b)[0] == a[0];
      assert (a + b)[1..] == a[1..] + b;
      FoldAppend(ByteStep(crc, a[0], poly, refIn), a[1..], b, poly, refIn);
    }
  }

  /** Appending one byte applies exactly one ByteStep. */
  lemma FoldSnoc(crc: bv32, a: seq<byte>, x: byte, poly: bv32, refIn: bool)
    ensures Fold(crc, a + [x], poly, refIn) == ByteStep(Fold(crc, a, poly, refIn), x, poly, refIn)
  {
    FoldAppend(crc, a, [x], poly, refIn);
    assert [x][1..] == [];
  }

  /** With no input bytes the result is the finalised initial register. */
  lemma CrcOfEmpty(c: CrcData)
    ensures Crc(c, []) == Finalise(c, InitialRegister(c))
  {
  }

  /** Start value and polynomial are bit-reversed before use exactly when refIn is set. */
  lemma ReflectionOfParameters(c: CrcData)
    ensures c.refIn ==> InitialRegister(c) == ReverseBits(c.start) && LoopPolynomial(c) == ReverseBits(c.polynomial)
    ensures !c.refIn ==> InitialRegister(c) == c.start && LoopPolynomial(c) == c.polynomial
  {
  }

  /** The final register is reversed iff refIn != refOut, then xor-ed with xorOut. */
  lemma FinaliseReflectsIffRefInDiffers(c: CrcData, reg: bv32)
    ensures c.refIn != c.refOut ==> Finalise(c, reg) == ReverseBits(reg) ^ c.xorOut
    ensures c.refIn == c.refOut ==> Finalise(c, reg) == reg ^ c.xorOut
  {
  }

  /** The inner loops of calculate_crc: eight shift/xor rounds. The source
      masks the polynomial in by multiplying it with the bit shifted out;
      `MaskTimesPoly` shows that product is the selection written here. */
  method ApplyRounds(idx: bv32, poly: bv32, refIn: bool) returns (step: bv32)
    ensures step == Rounds(idx, poly, refIn, 8)
  {
    step := idx;
    if refIn {
      for k := 0 to 8
        invariant Rounds(step, poly, true, 8 - k) == Rounds(idx, poly, true, 8)
      {
        step := (step >> 1) ^ (if step & 1 == 1 then poly else 0);
      }
    } else {
      for k := 0 to 8
        invariant Rounds(step, poly, false, 8 - k) == Rounds(idx, poly, false, 8)
      {
        step := (step << 1) ^ (if (step >> 31) & 1 == 1 then poly else 0);
      }
    }
  }

  /** The byte loop of calculate_crc with the corrected index placement
      (the top byte on the non-reflected path): the register after each
      byte is one ByteStep of the register before it. */
  method ProcessBytes(crc0: bv32, data: seq<byte>, poly: bv32, refIn: bool) returns (crc: bv32)
    ensures crc == Fold(crc0, data, poly, refIn)
  {
    crc := crc0;
    for i := 0 to |data|
      invariant crc == Fold(crc0, data[..i], poly, refIn)
    {
      var idx := IndexByte(crc, data[i], refIn);
      var step := ApplyRounds(idx, poly, refIn);
      crc := ShiftIn(step, crc, refIn);
      FoldSnoc(crc0, data[..i], data[i], poly, refIn);
      assert data[..i + 1] == data[..i] + [data[i]];
    }
    assert data[..|data|] == data;
  }

  /** calculate_crc, corrected as ProcessBytes is: reflect start value and
      polynomial if refIn, run every byte through the rounds, then reflect
      and xor the final register. */
  method CalculateCrc(data: seq<byte>, c: CrcData) returns (r: bv32)
    ensures r == Crc(c, data)
  {
    var crc := if c.refIn then ReverseBits(c.start) else c.start;
    var poly := if c.refIn then ReverseBits(c.polynomial) else c.polynomial;
    assert crc == InitialRegister(c) && poly == LoopPolynomial(c);
    crc := ProcessBytes(crc, data, poly, c.refIn);
    ghost var folded := crc;
    if c.refIn != c.refOut {
      crc := ReverseBits(crc);
    }
    assert crc == OutputReflection(c, folded);
    r := crc ^ c.xorOut;
  }

  // ---------------------------------------------------------------------
  // Check values

  /** The ASCII bytes of "123456789", the catalogue check input. */
  const CHECK_INPUT: seq<byte> := [0x31, 0x32, 0x33, 0x34, 0x35, 0x36, 0x37, 0x38, 0x39]

  /** CRC-32 (ISO-HDLC / ITU-T V.42 FCS) parameters. */
  const CRC32_ISO_HDLC: CrcData := CrcData(0x04C1_1DB7, 0xFFFF_FFFF, 0xFFFF_FFFF, true, true, Data)

  /** CRC-32/MPEG-2 parameters. */
  const CRC32_MPEG2: CrcData := CrcData(0x04C1_1DB7, 0xFFFF_FFFF, 0, false, false, Data)

  /** If tr lists the register before and after every byte of s, the fold
      of s from tr[0] ends in the last entry of tr. */
  lemma {:induction false} FoldFollowsTrace(s: seq<byte>, tr: seq<bv32>, poly: bv32, refIn: bool)
    requires |tr| == |s| + 1
    requires forall k :: 0 <= k < |s| ==> ByteStep(tr[k], s[k], poly, refIn) == tr[k + 1]
    ensures Fold(tr[0], s, poly, refIn) == tr[|s|]
    decreases |s|
  {
    if s != [] {
      FoldFollowsTrace(s[1..], tr[1..], poly, refIn);
    }
  }

  /** ByteStep with its eight rounds written out, for concrete evaluation. */
  lemma ByteStepUnrolled(crc: bv32, b: byte, poly: bv32, refIn: bool)
    ensures ByteStep(crc, b, poly, refIn) == ShiftIn(EightRounds(IndexByte(crc, b, refIn), poly, refIn), crc, refIn)
  {
    EightRoundsAreRounds(IndexByte(crc, b, refIn), poly, refIn);
  }

  /** The register before and after each byte of CHECK_INPUT under CRC-32/ISO-HDLC (reflected). */
  const ISO_HDLC_TRACE: seq<bv32> :=
    [0xFFFF_FFFF, 0x7C23_1048, 0xB0AC_BB32, 0x77B7_9C2D, 0x641C_1F5C,
     0x340A_C5E3, 0xF68D_2C9E, 0xAFFC_9660, 0x651F_2550, 0x340B_C6D9]

  lemma IsoHdlcSteps1(k: nat)
    requires 0 <= k < 3
    ensures ByteStep(ISO_HDLC_TRACE[k], CHECK_INPUT[k], 0xEDB8_8320, true) == ISO_HDLC_TRACE[k + 1]
  {
    ByteStepUnrolled(0xFFFF_FFFF, 0x31, 0xEDB8_8320, true);
    ByteStepUnrolled(0x7C23_1048, 0x32, 0xEDB8_8320, true);
    ByteStepUnrolled(0xB0AC_BB32, 0x33, 0xEDB8_8320, true);
    assert k == 0 || k == 1 || k == 2;
  }

  lemma IsoHdlcSteps2(k: nat)
    requires 3 <= k < 6
    ensures ByteStep(ISO_HDLC_TRACE[k], CHECK_INPUT[k], 0xEDB8_8320, true) == ISO_HDLC_TRACE[k + 1]
  {
    ByteStepUnrolled(0x77B7_9C2D, 0x34, 0xEDB8_8320, true);
    ByteStepUnrolled(0x641C_1F5C, 0x35, 0xEDB8_8320, true);
    ByteStepUnrolled(0x340A_C5E3, 0x36, 0xEDB8_8320, true);
    assert k == 3 || k == 4 || k == 5;
  }

  lemma IsoHdlcSteps3(k: nat)
    requires 6 <= k < 9
    ensures ByteStep(ISO_HDLC_TRACE[k], CHECK_INPUT[k], 0xEDB8_8320, true) == ISO_HDLC_TRACE[k + 1]
  {
    ByteStepUnrolled(0xF68D_2C9E, 0x37, 0xEDB8_8320, true);
    ByteStepUnrolled(0xAFFC_9660, 0x38, 0xEDB8_8320, true);
    ByteStepUnrolled(0x651F_2550, 0x39, 0xEDB8_8320, true);
    assert k == 6 || k == 7 || k == 8;
  }

  lemma IsoHdlcParameters()
    ensures InitialRegister(CRC32_ISO_HDLC) == 0xFFFF_FFFF
    ensures LoopPolynomial(CRC32_ISO_HDLC) == 0xEDB8_8320
  {
    ReverseBitsUnfolded(0x04C1_1DB7);
    ReverseBitsUnfolded(0xFFFF_FFFF);
  }

  /** The catalogue check value of CRC-32 (ISO-HDLC). */
  lemma Crc32IsoHdlcCheckValue()
    ensures Crc(CRC32_ISO_HDLC, CHECK_INPUT) == 0xCBF4_3926
  {
    IsoHdlcParameters();
    forall k | 0 <= k < 9
      ensures ByteStep(ISO_HDLC_TRACE[k], CHECK_INPUT[k], 0xEDB8_8320, true) == ISO_HDLC_TRACE[k + 1]
    {
      if k < 3 { IsoHdlcSteps1(k); } else if k < 6 { IsoHdlcSteps2(k); } else { IsoHdlcSteps3(k); }
    }
    FoldFollowsTrace(CHECK_INPUT, ISO_HDLC_TRACE, 0xEDB8_8320, true);
  }

  /** The register before and after each byte of CHECK_INPUT under CRC-32/MPEG-2 (not reflected). */
  const MPEG2_TRACE: seq<bv32> :=
    [0xFFFF_FFFF, 0x9EFB_CF93, 0x3FEC_5E6A, 0xD952_F164, 0xA695_C4AA,
     0xBD9A_B747, 0xD8F0_6C8F, 0x0D8A_14C4, 0x49E3_C2FB, 0x0376_E6E7]

  lemma Mpeg2Steps1(k: nat)
    requires 0 <= k < 3
    ensures ByteStep(MPEG2_TRACE[k], CHECK_INPUT[k], 0x04C1_1DB7, false) == MPEG2_TRACE[k + 1]
  {
    ByteStepUnrolled(0xFFFF_FFFF, 0x31, 0x04C1_1DB7, false);
    ByteStepUnrolled(0x9EFB_CF93, 0x32, 0x04C1_1DB7, false);
    ByteStepUnrolled(0x3FEC_5E6A, 0x33, 0x04C1_1DB7, false);
    assert k == 0 || k == 1 || k == 2;
  }

  lemma Mpeg2Steps2(k: nat)
    requires 3 <= k < 6
    ensures ByteStep(MPEG2_TRACE[k], CHECK_INPUT[k], 0x04C1_1DB7, false) == MPEG2_TRACE[k + 1]
  {
    ByteStepUnrolled(0xD952_F164, 0x34, 0x04C1_1DB7, false);
    ByteStepUnrolled(0xA695_C4AA, 0x35, 0x04C1_1DB7, false);
    ByteStepUnrolled(0xBD9A_B747, 0x36, 0x04C1_1DB7, false);
    assert k == 3 || k == 4 || k == 5;
  }

  lemma Mpeg2Steps3(k: nat)
    requires 6 <= k < 9
    ensures ByteStep(MPEG2_TRACE[k], CHECK_INPUT[k], 0x04C1_1DB7, false) == MPEG2_TRACE[k + 1]
  {
    ByteStepUnrolled(0xD8F0_6C8F, 0x37, 0x04C1_1DB7, false);
    ByteStepUnrolled(0x0D8A_14C4, 0x38, 0x04C1_1DB7, false);
    ByteStepUnrolled(0x49E3_C2FB, 0x39, 0x04C1_1DB7, false);
    assert k == 6 || k == 7 || k == 8;
  }

  /** The catalogue check value of CRC-32/MPEG-2. */
  lemma Crc32Mpeg2CheckValue()
    ensures Crc(CRC32_MPEG2, CHECK_INPUT) == 0x0376_E6E7
  {
    forall k | 0 <= k < 9
      ensures ByteStep(MPEG2_TRACE[k], CHECK_INPUT[k], 0x04C1_1DB7, false) == MPEG2_TRACE[k + 1]
    {
      if k < 3 { Mpeg2Steps1(k); } else if k < 6 { Mpeg2Steps2(k); } else { Mpeg2Steps3(k); }
    }
    FoldFollowsTrace(CHECK_INPUT, MPEG2_TRACE, 0x04C1_1DB7, false);
  }

  // ---------------------------------------------------------------------
  // The non-reflected branch as written

  /** checksum.rs:21-45 as written: the same byte step, but with the index
      byte of the non-reflected branch left in the low byte. */
  function ByteStepAsWritten(crc: bv32, b: byte, poly: bv32, refIn: bool): bv32
  {
    ShiftIn(Rounds(IndexByteAsWritten(crc, b, refIn), poly, refIn, 8), crc, refIn)
  }

  /** checksum.rs:22-26 as written: the index byte is the low byte in both directions. */
  function IndexByteAsWritten(crc: bv32, b: byte, refIn: bool): bv32
  {
    if refIn then (crc ^ b as bv32) & 0xFF else ((crc >> 24) ^ b as bv32) & 0xFF
  }

  function FoldAsWritten(crc: bv32, data: seq<byte>, poly: bv32, refIn: bool): bv32
    decreases |data|
  {
    if data == [] then crc else FoldAsWritten(ByteStepAsWritten(crc, data[0], poly, refIn), data[1..], poly, refIn)
  }

  /** calculate_crc exactly as written. */
  function CrcAsWritten(c: CrcData, data: seq<byte>): bv32
  {
    Finalise(c, FoldAsWritten(InitialRegister(c), data, LoopPolynomial(c), c.refIn))
  }

  /** A left shift of a register whose bit 31 is clear never applies the polynomial. */
  lemma ForwardRoundWithoutCarry(s: bv32, poly: bv32)
    requires s < 0x8000_0000
    ensures RoundForward(s, poly) == s << 1
  {
  }

  /** As written, eight left shifts of a value below 256 never reach bit 31,
      so the polynomial is never xor-ed in: the step is just idx << 8. */
  lemma ForwardRoundsNeverReachBit31(idx: bv32, poly: bv32)
    requires idx < 256
    ensures Rounds(idx, poly, false, 8) == idx << 8
  {
    EightRoundsAreRounds(idx, poly, false);
    ForwardRoundWithoutCarry(idx, poly);
    ForwardRoundWithoutCarry(idx << 1, poly);
    assert (idx << 1) << 1 == idx << 2;
    ForwardRoundWithoutCarry(idx << 2, poly);
    assert (idx << 2) << 1 == idx << 3;
    ForwardRoundWithoutCarry(idx << 3, poly);
    assert (idx << 3) << 1 == idx << 4;
    ForwardRoundWithoutCarry(idx << 4, poly);
    assert (idx << 4) << 1 == idx << 5;
    ForwardRoundWithoutCarry(idx << 5, poly);
    assert (idx << 5) << 1 == idx << 6;
    ForwardRoundWithoutCarry(idx << 6, poly);
    assert (idx << 6) << 1 == idx << 7;
    ForwardRoundWithoutCarry(idx << 7, poly);
    assert (idx << 7) << 1 == idx << 8;
  }

  /** As written, a non-reflected byte step only shifts the register and
      mixes in the index byte: (crc << 8) ^ (idx << 8). */
  lemma ByteStepAsWrittenForward(crc: bv32, b: byte, poly: bv32)
    ensures ByteStepAsWritten(crc, b, poly, false) == ((((crc >> 24) ^ b as bv32) & 0xFF) << 8) ^ (crc << 8)
  {
    ForwardRoundsNeverReachBit31(((crc >> 24) ^ b as bv32) & 0xFF, poly);
  }

  /** For reflected parameters the code as written is the intended CRC. */
  lemma {:induction false} AsWrittenAgreesWhenReflected(crc: bv32, data: seq<byte>, poly: bv32)
    ensures FoldAsWritten(crc, data, poly, true) == Fold(crc, data, poly, true)
    decreases |data|
  {
    if data != [] {
      AsWrittenAgreesWhenReflected(ByteStep(crc, data[0], poly, true), data[1..], poly);
    }
  }

  lemma {:induction false} FoldAsWrittenFollowsTrace(s: seq<byte>, tr: seq<bv32>, poly: bv32, refIn: bool)
    requires |tr| == |s| + 1
    requires forall k :: 0 <= k < |s| ==> ByteStepAsWritten(tr[k], s[k], poly, refIn) == tr[k + 1]
    ensures FoldAsWritten(tr[0], s, poly, refIn) == tr[|s|]
    decreases |s|
  {
    if s != [] {
      FoldAsWrittenFollowsTrace(s[1..], tr[1..], poly, refIn);
    }
  }

  /** The register before and after each byte of CHECK_INPUT under the MPEG-2 parameters, as written. */
  const MPEG2_AS_WRITTEN_TRACE: seq<bv32> :=
    [0xFFFF_FFFF, 0xFFFF_3100, 0xFF31_CD00, 0x31CD_CC00, 0xCDCC_0500,
     0xCC05_F800, 0x05F8_FA00, 0xF8FA_3200, 0xFA32_C000, 0x32C0_C300]

  lemma Mpeg2AsWrittenSteps1(k: nat)
    requires 0 <= k < 3
    ensures ByteStepAsWritten(MPEG2_AS_WRITTEN_TRACE[k], CHECK_INPUT[k], 0x04C1_1DB7, false) == MPEG2_AS_WRITTEN_TRACE[k + 1]
  {
    ByteStepAsWrittenForward(0xFFFF_FFFF, 0x31, 0x04C1_1DB7);
    ByteStepAsWrittenForward(0xFFFF_3100, 0x32, 0x04C1_1DB7);
    ByteStepAsWrittenForward(0xFF31_CD00, 0x33, 0x04C1_1DB7);
    assert k == 0 || k == 1 || k == 2;
  }

  lemma Mpeg2AsWrittenSteps2(k: nat)
    requires 3 <= k < 6
    ensures ByteStepAsWritten(MPEG2_AS_WRITTEN_TRACE[k], CHECK_INPUT[k], 0x04C1_1DB7, false) == MPEG2_AS_WRITTEN_TRACE[k + 1]
  {
    ByteStepAsWrittenForward(0x31CD_CC00, 0x34, 0x04C1_1DB7);
    ByteStepAsWrittenForward(0xCDCC_0500, 0x35, 0x04C1_1DB7);
    ByteStepAsWrittenForward(0xCC05_F800, 0x36, 0x04C1_1DB7);
    assert k == 3 || k == 4 || k == 5;
  }

  lemma Mpeg2AsWrittenSteps3(k: nat)
    requires 6 <= k < 9
    ensures ByteStepAsWritten(MPEG2_AS_WRITTEN_TRACE[k], CHECK_INPUT[k], 0x04C1_1DB7, false) == MPEG2_AS_WRITTEN_TRACE[k + 1]
  {
    ByteStepAsWrittenForward(0x05F8_FA00, 0x37, 0x04C1_1DB7);
    ByteStepAsWrittenForward(0xF8FA_3200, 0x38, 0x04C1_1DB7);
    ByteStepAsWrittenForward(0xFA32_C000, 0x39, 0x04C1_1DB7);
    assert k == 6 || k == 7 || k == 8;
  }

  /** As written, CRC-32/MPEG-2 of "123456789" is 0x32C0C300, not the catalogue value 0x0376E6E7. */
  lemma AsWrittenMissesMpeg2CheckValue()
    ensures CrcAsWritten(CRC32_MPEG2, CHECK_INPUT) == 0x32C0_C300
    ensures CrcAsWritten(CRC32_MPEG2, CHECK_INPUT) != Crc(CRC32_MPEG2, CHECK_INPUT)
  {
    forall k | 0 <= k < 9
      ensures ByteStepAsWritten(MPEG2_AS_WRITTEN_TRACE[k], CHECK_INPUT[k], 0x04C1_1DB7, false) == MPEG2_AS_WRITTEN_TRACE[k + 1]
    {
      if k < 3 { Mpeg2AsWrittenSteps1(k); } else if k < 6 { Mpeg2AsWrittenSteps2(k); } else { Mpeg2AsWrittenSteps3(k); }
    }
    FoldAsWrittenFollowsTrace(CHECK_INPUT, MPEG2_AS_WRITTEN_TRACE, 0x04C1_1DB7, false);
    Crc32Mpeg2CheckValue();
  }
}
