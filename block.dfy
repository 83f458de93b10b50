/** A flash block of the later layout builder (src/layout/block.rs): its
    entries are written depth first into one buffer, each leaf first padded
    to a multiple of its own width, with a count of the padding bytes
    written; a block whose CRC goes at a keyword position is then padded to
    a multiple of four bytes. A failure inside a branch is wrapped in the
    name of the field it happened in.

    The functions `Build` and `Stream` state the result; the `Builder`
    class is the buffer, offset and padding count the source threads
    through its recursion, and its methods are proved against those
    functions. */
module LayoutBlock {
  import opened Common
  import opened Workbook
  import opened LayoutErrors
  import LayoutSettings
  import Primitives
  import Schema
  import LayoutEntry

  /** An entry: a leaf, or a branch of named entries in insertion order. */
  datatype Entry = Leaf(leaf: LayoutEntry.LeafEntry) | Branch(children: seq<(string, Entry)>)

  datatype Block = Block(header: Schema.Header, data: Entry)

  /** How a leaf becomes bytes: `LayoutEntry.Emit` with the build's data
      sheet and configuration (see `LeafEmitter`). The layout functions
      take it as a parameter so that their properties hold for any leaf
      emitter. */
  type Emitter = LayoutEntry.LeafEntry -> Result<seq<byte>, LayoutError>

  function LeafEmitter(ds: Option<DataSheet>, config: LayoutEntry.BuildConfig, codec: Primitives.FloatCodec): (emit: Emitter)
    ensures forall leaf :: emit(leaf) == LayoutEntry.Emit(leaf, ds, config, codec)
  {
    leaf => LayoutEntry.Emit(leaf, ds, config, codec)
  }

  /** What a subtree adds to the buffer: its bytes, and how many of them
      are alignment padding. */
  datatype Piece = Piece(bytes: seq<byte>, pads: nat)

  // ---------------------------------------------------------------------
  // Alignment

  predicate OnBoundary(x: nat, w: nat)
    requires w > 0
  {
    x % w == 0
  }

  /** The padding the alignment loop writes at `offset`: the distance to
      the first multiple of `w` at or after it. */
  function AlignPad(offset: nat, w: nat): (r: nat)
    requires w > 0
    ensures r < w && OnBoundary(offset + r, w)
    ensures forall k :: offset <= k < offset + r ==> !OnBoundary(k, w)
  {
    AlignPadIsFirstBoundary(offset, w);
    (w - offset % w) % w
  }

  lemma AlignPadIsFirstBoundary(offset: nat, w: nat)
    requires w > 0
    ensures var r := (w - offset % w) % w;
      && 0 <= r < w && OnBoundary(offset + r, w)
      && forall k :: offset <= k < offset + r ==> !OnBoundary(k, w)
  {
    var q, m := offset / w, offset % w;
    assert offset == w * q + m;
    if m == 0 {
      Primitives.DivUnique(w, w, 1, 0);
      assert (w - m) % w == 0;
    } else {
      Primitives.DivUnique(w - m, w, 0, w - m);
      Primitives.DivUnique(offset + (w - m), w, q + 1, 0);
      forall k | offset <= k < offset + (w - m)
        ensures !OnBoundary(k, w)
      {
        Primitives.DivUnique(k, w, q, m + (k - offset));
      }
    }
  }

  // ---------------------------------------------------------------------
  // The layout

  /** A failure inside the named field. */
  function InFieldOf<T>(field: string, r: Result<T, LayoutError>): (x: Result<T, LayoutError>)
    ensures x.Ok? <==> r.Ok?
    ensures x.Ok? ==> x.value == r.value
    ensures x.Err? ==> x.error == InField(field, r.error)
  {
    match r
    case Ok(v) => Ok(v)
    case Err(e) => Err(InField(field, e))
  }

  /** `build_bytestream_inner` from byte `offset` of the block: a leaf is
      its alignment padding and then its bytes; a branch is its fields one
      after another, each starting where the previous one ended. */
  function Build(e: Entry, emit: Emitter, padding: byte, offset: nat): (r: Result<Piece, LayoutError>)
    decreases e, 1
  {
    match e
    case Leaf(leaf) =>
      var pad := AlignPad(offset, leaf.Alignment());
      var bytes :- emit(leaf);
      Ok(Piece(Fill(pad, padding) + bytes, pad))
    case Branch(children) => BuildFields(children, 0, emit, padding, offset)
  }

  /** The fields of a branch from the i-th on. */
  function BuildFields(children: seq<(string, Entry)>, i: nat, emit: Emitter, padding: byte, offset: nat): (r: Result<Piece, LayoutError>)
    requires i <= |children|
    decreases Branch(children), 0, |children| - i
  {
    if i == |children| then Ok(Piece([], 0))
    else
      var first :- InFieldOf(children[i].0, Build(children[i].1, emit, padding, offset));
      var rest :- BuildFields(children, i + 1, emit, padding, offset + |first.bytes|);
      Ok(Piece(first.bytes + rest.bytes, first.pads + rest.pads))
  }

  /** The leaves' bytes back to back, without alignment: the reference the
      padding is measured against. */
  function Packed(e: Entry, emit: Emitter): (r: Result<seq<byte>, LayoutError>)
    decreases e, 1
  {
    match e
    case Leaf(leaf) => emit(leaf)
    case Branch(children) => PackedFields(children, 0, emit)
  }

  function PackedFields(children: seq<(string, Entry)>, i: nat, emit: Emitter): (r: Result<seq<byte>, LayoutError>)
    requires i <= |children|
    decreases Branch(children), 0, |children| - i
  {
    if i == |children| then Ok([])
    else
      var first :- InFieldOf(children[i].0, Packed(children[i].1, emit));
      var rest :- PackedFields(children, i + 1, emit);
      Ok(first + rest)
  }

  /** A leaf placed at `offset` starts at the first multiple of its width at
      or after `offset`, and only padding comes before it. */
  lemma LeafStartsAligned(leaf: LayoutEntry.LeafEntry, emit: Emitter, padding: byte, offset: nat)
    requires Build(Leaf(leaf), emit, padding, offset).Ok?
    ensures var p := Build(Leaf(leaf), emit, padding, offset).value;
      && p.pads < leaf.Alignment()
      && OnBoundary(offset + p.pads, leaf.Alignment())
      && (forall k :: offset <= k < offset + p.pads ==> !OnBoundary(k, leaf.Alignment()))
      && p.bytes == Fill(p.pads, padding) + emit(leaf).value
  {
  }

  /** Alignment only adds padding: the layout fails exactly when the packed
      leaves fail, with the same error, and otherwise is as long as the
      packed leaves plus the padding it counts. */
  lemma {:induction false} BuildIsPackedPlusPadding(e: Entry, emit: Emitter, padding: byte, offset: nat)
    decreases e, 1
    ensures var b, p := Build(e, emit, padding, offset), Packed(e, emit);
      && (b.Ok? <==> p.Ok?)
      && (b.Err? ==> b.error == p.error)
      && (b.Ok? ==> |b.value.bytes| == |p.value| + b.value.pads)
  {
    match e {
      case Leaf(leaf) =>
      case Branch(children) => FieldsArePackedPlusPadding(children, 0, emit, padding, offset);
    }
  }

  lemma {:induction false} FieldsArePackedPlusPadding(children: seq<(string, Entry)>, i: nat, emit: Emitter, padding: byte, offset: nat)
    requires i <= |children|
    decreases Branch(children), 0, |children| - i
    ensures var b, p := BuildFields(children, i, emit, padding, offset), PackedFields(children, i, emit);
      && (b.Ok? <==> p.Ok?)
      && (b.Err? ==> b.error == p.error)
      && (b.Ok? ==> |b.value.bytes| == |p.value| + b.value.pads)
  {
    if i < |children| {
      BuildIsPackedPlusPadding(children[i].1, emit, padding, offset);
      var first := Build(children[i].1, emit, padding, offset);
      if first.Ok? {
        FieldsArePackedPlusPadding(children, i + 1, emit, padding, offset + |first.value.bytes|);
      }
    }
  }

  /** Every leaf of the tree is one byte wide. */
  predicate BytesOnly(e: Entry)
    decreases e, 1
  {
    match e
    case Leaf(leaf) => leaf.Alignment() == 1
    case Branch(children) => BytesOnlyFrom(children, 0)
  }

  predicate BytesOnlyFrom(children: seq<(string, Entry)>, i: nat)
    requires i <= |children|
    decreases Branch(children), 0, |children| - i
  {
    i == |children| || (BytesOnly(children[i].1) && BytesOnlyFrom(children, i + 1))
  }

  /** A tree of byte-wide leaves needs no padding: its layout is the packed
      leaves, wherever it starts. */
  lemma {:induction false} BytesNeedNoPadding(e: Entry, emit: Emitter, padding: byte, offset: nat)
    requires BytesOnly(e)
    decreases e, 1
    ensures Packed(e, emit).Ok? ==>
      Build(e, emit, padding, offset) == Ok(Piece(Packed(e, emit).value, 0))
  {
    match e {
      case Leaf(leaf) =>
        assert AlignPad(offset, leaf.Alignment()) == 0;
        if emit(leaf).Ok? {
          assert Fill(0, padding) + emit(leaf).value == emit(leaf).value;
        }
      case Branch(children) => FieldsNeedNoPadding(children, 0, emit, padding, offset);
    }
  }

  lemma {:induction false} FieldsNeedNoPadding(children: seq<(string, Entry)>, i: nat, emit: Emitter, padding: byte, offset: nat)
    requires i <= |children| && BytesOnlyFrom(children, i)
    decreases Branch(children), 0, |children| - i
    ensures PackedFields(children, i, emit).Ok? ==>
      BuildFields(children, i, emit, padding, offset) == Ok(Piece(PackedFields(children, i, emit).value, 0))
  {
    if i < |children| {
      BytesNeedNoPadding(children[i].1, emit, padding, offset);
      var first := Packed(children[i].1, emit);
      if first.Ok? {
        FieldsNeedNoPadding(children, i + 1, emit, padding, offset + |first.value|);
      }
    }
  }

  /** `build_bytestream`: the block's entries from offset 0, then, for a CRC
      at a keyword position, padding to a multiple of four bytes; with the
      number of padding bytes written. */
  function Stream(block: Block, emit: Emitter): (r: Result<(seq<byte>, nat), LayoutError>)
    ensures r.Ok? && block.header.crcLocation.Keyword? ==> |r.value.0| % 4 == 0
  {
    var piece :- Build(block.data, emit, block.header.padding, 0);
    if block.header.crcLocation.Keyword? then
      var tail := AlignPad(|piece.bytes|, 4);
      Ok((piece.bytes + Fill(tail, block.header.padding), piece.pads + tail))
    else Ok((piece.bytes, piece.pads))
  }

  /** The leaf emitter of `build_bytestream`: the data sheet, the settings'
      byte order, the header's padding byte and the strict switch. */
  function BlockEmitter(block: Block, ds: Option<DataSheet>, settings: LayoutSettings.Settings, strict: bool, codec: Primitives.FloatCodec): Emitter
  {
    LeafEmitter(ds, LayoutEntry.BuildConfig(settings.endianness, block.header.padding, strict), codec)
  }


  /** The padding count counts exactly the bytes that are not leaf data,
      and the stream fails exactly when a leaf fails. */
  lemma StreamCountsPadding(block: Block, emit: Emitter)
    ensures var r, p := Stream(block, emit), Packed(block.data, emit);
      && (r.Ok? <==> p.Ok?)
      && (r.Err? ==> r.error == p.error)
      && (r.Ok? ==> |r.value.0| == |p.value| + r.value.1)
  {
    BuildIsPackedPlusPadding(block.data, emit, block.header.padding, 0);
  }


  /** The bytes of a branch from the i-th field on, after those already
      written. */
  function Then(acc: Piece, r: Result<Piece, LayoutError>): (x: Result<Piece, LayoutError>)
    ensures x.Ok? <==> r.Ok?
    ensures x.Ok? ==> x.value == Piece(acc.bytes + r.value.bytes, acc.pads + r.value.pads)
    ensures x.Err? ==> x.error == r.error
  {
    match r
    case Ok(p) => Ok(Piece(acc.bytes + p.bytes, acc.pads + p.pads))
    case Err(e) => Err(e)
  }

  lemma ThenNothing(r: Result<Piece, LayoutError>)
    ensures Then(Piece([], 0), r) == r
  {
    if r.Ok? {
      assert [] + r.value.bytes == r.value.bytes;
    }
  }

  /** One field of the branch loop. */
  lemma FieldStep(acc: Piece, children: seq<(string, Entry)>, i: nat, emit: Emitter, padding: byte, offset: nat)
    requires i < |children|
    requires Build(children[i].1, emit, padding, offset).Ok?
    ensures var first := Build(children[i].1, emit, padding, offset).value;
      Then(acc, BuildFields(children, i, emit, padding, offset))
        == Then(Piece(acc.bytes + first.bytes, acc.pads + first.pads), BuildFields(children, i + 1, emit, padding, offset + |first.bytes|))
  {
    var first := Build(children[i].1, emit, padding, offset).value;
    match BuildFields(children, i + 1, emit, padding, offset + |first.bytes|) {
      case Ok(rest) =>
        assert acc.bytes + (first.bytes + rest.bytes) == (acc.bytes + first.bytes) + rest.bytes;
      case Err(_) =>
    }
  }

  // ---------------------------------------------------------------------
  // The buffer

  /** The state `build_bytestream` threads through the recursion: the
      buffer, the offset of its end, and the padding written so far. */
  class Builder {
    var buffer: seq<byte>
    var offset: nat
    var paddingCount: nat

    constructor ()
      ensures buffer == [] && offset == 0 && paddingCount == 0
    {
      buffer := [];
      offset := 0;
      paddingCount := 0;
    }

    /** The alignment loop: padding bytes until the offset is a multiple of
        `alignment`. */
    method Align(alignment: nat, padding: byte)
      requires alignment > 0
      modifies this
      ensures var pad := AlignPad(old(offset), alignment);
        && buffer == old(buffer) + Fill(pad, padding)
        && offset == old(offset) + pad
        && paddingCount == old(paddingCount) + pad
    {
      ghost var start := offset;
      ghost var target := offset + AlignPad(offset, alignment);
      assert Fill(0, padding) == [];
      while offset % alignment != 0
        invariant start <= offset <= target
        invariant buffer == old(buffer) + Fill(offset - start, padding)
        invariant paddingCount == old(paddingCount) + (offset - start)
        invariant forall k :: start <= k < offset ==> !OnBoundary(k, alignment)
        decreases target - offset
      {
        assert !OnBoundary(offset, alignment);
        assert Fill(offset - start, padding) + [padding] == Fill(offset + 1 - start, padding);
        buffer := buffer + [padding];
        offset := offset + 1;
        paddingCount := paddingCount + 1;
      }
      assert OnBoundary(offset, alignment);
    }

    /** `build_bytestream_inner`; `emit` is the leaf emitter the data
        sheet and configuration make. */
    method Inner(e: Entry, emit: Emitter, padding: byte)
      returns (r: Result<(), LayoutError>)
      modifies this
      decreases e, 1
      ensures var expected := Build(e, emit, padding, old(offset));
        && (r.Ok? <==> expected.Ok?)
        && (r.Err? ==> r.error == expected.error)
        && (r.Ok? ==> buffer == old(buffer) + expected.value.bytes)
        && (r.Ok? ==> offset == old(offset) + |expected.value.bytes|)
        && (r.Ok? ==> paddingCount == old(paddingCount) + expected.value.pads)
    {
      match e {
        case Leaf(leaf) =>
          Align(leaf.Alignment(), padding);
          var bytes := emit(leaf);
          if bytes.Err? {
            return Err(bytes.error);
          }
          offset := offset + |bytes.value|;
          buffer := buffer + bytes.value;
          r := Ok(());
        case Branch(children) =>
          r := Fields(children, emit, padding);
      }
    }

    /** The field loop of `build_bytestream_inner`. */
    method Fields(children: seq<(string, Entry)>, emit: Emitter, padding: byte)
      returns (r: Result<(), LayoutError>)
      modifies this
      decreases Branch(children), 0
      ensures var expected := BuildFields(children, 0, emit, padding, old(offset));
        && (r.Ok? <==> expected.Ok?)
        && (r.Err? ==> r.error == expected.error)
        && (r.Ok? ==> buffer == old(buffer) + expected.value.bytes)
        && (r.Ok? ==> offset == old(offset) + |expected.value.bytes|)
        && (r.Ok? ==> paddingCount == old(paddingCount) + expected.value.pads)
    {
      ghost var acc := Piece([], 0);
      ThenNothing(BuildFields(children, 0, emit, padding, offset));
      var i := 0;
      while i < |children|
        invariant 0 <= i <= |children|
        invariant buffer == old(buffer) + acc.bytes
        invariant offset == old(offset) + |acc.bytes|
        invariant paddingCount == old(paddingCount) + acc.pads
        invariant Then(acc, BuildFields(children, i, emit, padding, offset))
               == BuildFields(children, 0, emit, padding, old(offset))
      {
        ghost var before := offset;
        var field := Inner(children[i].1, emit, padding);
        if field.Err? {
          return Err(InField(children[i].0, field.error));
        }
        ghost var first := Build(children[i].1, emit, padding, before).value;
        FieldStep(acc, children, i, emit, padding, before);
        acc := Piece(acc.bytes + first.bytes, acc.pads + first.pads);
        i := i + 1;
      }
      assert acc.bytes + [] == acc.bytes;
      r := Ok(());
    }
  }

  /** The method form of `build_bytestream`. */
  method BuildStream(block: Block, emit: Emitter) returns (r: Result<(seq<byte>, nat), LayoutError>)
    ensures r == Stream(block, emit)
  {
    var builder := new Builder();
    var built := builder.Inner(block.data, emit, block.header.padding);
    if built.Err? {
      return Err(built.error);
    }
    ghost var piece := Build(block.data, emit, block.header.padding, 0).value;
    assert builder.buffer == piece.bytes && builder.offset == |piece.bytes| && builder.paddingCount == piece.pads;
    if block.header.crcLocation.Keyword? {
      builder.Align(4, block.header.padding);
    }
    r := Ok((builder.buffer, builder.paddingCount));
  }

  /** `build_bytestream` with its arguments. */
  method BuildBytestream(block: Block, ds: Option<DataSheet>, settings: LayoutSettings.Settings, strict: bool, codec: Primitives.FloatCodec)
    returns (r: Result<(seq<byte>, nat), LayoutError>)
    ensures r == Stream(block, BlockEmitter(block, ds, settings, strict, codec))
  {
    r := BuildStream(block, BlockEmitter(block, ds, settings, strict, codec));
  }

}
