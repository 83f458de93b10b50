/** A block of the older pipeline (src/layout.rs): the leaves' bytes written
    depth first, back to back, with no alignment and no padding between
    them; the first failing leaf fails the block with its own error.

    `Concat` states the result and `Leaves`/`EmitAll` give an independent
    reading of it (the leaves in order, then their bytes); the `Buffer`
    class is the buffer and offset the source threads through its
    recursion. */
module LegacyLayout {
  import opened Common
  import opened Errors
  import opened Schema
  import ValueBytes
  import LegacyEmit
  import Primitives

  /** How a leaf becomes bytes: `LegacyEmit.Emit` with the data sheet, the
      settings' byte order and the header's padding byte (see
      `LeafEmitter`). */
  type Emitter = LeafEntry -> Result<seq<byte>, NvmError>

  function LeafEmitter(sheet: LegacyEmit.Lookups, settings: Settings, padding: byte, strict: bool, codec: Primitives.FloatCodec): (emit: Emitter)
    ensures forall leaf :: emit(leaf) == LegacyEmit.Emit(leaf, sheet, LegacyEmit.Target(settings.endianness, padding, strict), codec)
  {
    leaf => LegacyEmit.Emit(leaf, sheet, LegacyEmit.Target(settings.endianness, padding, strict), codec)
  }

  /** `build_bytestream_inner`: a leaf is its bytes, a branch its fields'
      bytes one after another. */
  function Concat(e: Entry, emit: Emitter): (r: Result<seq<byte>, NvmError>)
    decreases e, 1
  {
    match e
    case Leaf(leaf) => emit(leaf)
    case Branch(children) => ConcatFields(children, 0, emit)
  }

  function ConcatFields(children: seq<(string, Entry)>, i: nat, emit: Emitter): (r: Result<seq<byte>, NvmError>)
    requires i <= |children|
    decreases Branch(children), 0, |children| - i
  {
    if i == |children| then Ok([])
    else
      var first :- Concat(children[i].1, emit);
      ValueBytes.Prepend(first, ConcatFields(children, i + 1, emit))
  }

  /** The leaves of a tree, depth first, in the order of their fields. */
  function Leaves(e: Entry): (r: seq<LeafEntry>)
    decreases e, 1
    ensures e.Leaf? ==> r == [e.leaf]
  {
    match e
    case Leaf(leaf) => [leaf]
    case Branch(children) => LeavesFrom(children, 0)
  }

  function LeavesFrom(children: seq<(string, Entry)>, i: nat): seq<LeafEntry>
    requires i <= |children|
    decreases Branch(children), 0, |children| - i
  {
    if i == |children| then []
    else Leaves(children[i].1) + LeavesFrom(children, i + 1)
  }

  /** The bytes of a run of leaves, one after another; the first leaf that
      fails gives the error. */
  function EmitAll(leaves: seq<LeafEntry>, emit: Emitter): (r: Result<seq<byte>, NvmError>)
    decreases |leaves|
  {
    if leaves == [] then Ok([])
    else
      var first :- emit(leaves[0]);
      ValueBytes.Prepend(first, EmitAll(leaves[1..], emit))
  }

  /** A run of leaves split in two: the first part, then the second. */
  lemma {:induction false} EmitAllAppend(a: seq<LeafEntry>, b: seq<LeafEntry>, emit: Emitter)
    decreases |a|
    ensures EmitAll(a + b, emit)
         == match EmitAll(a, emit)
            case Err(err) => Err(err)
            case Ok(x) => ValueBytes.Prepend(x, EmitAll(b, emit))
  {
    if a == [] {
      assert a + b == b;
      match EmitAll(b, emit)
      case Err(_) =>
      case Ok(ys) => assert [] + ys == ys;
    } else {
      assert (a + b)[1..] == a[1..] + b;
      assert (a + b)[0] == a[0];
      EmitAllAppend(a[1..], b, emit);
      match emit(a[0])
      case Err(_) =>
      case Ok(x0) =>
        match EmitAll(a[1..], emit)
        case Err(_) =>
        case Ok(xs) =>
          match EmitAll(b, emit)
          case Err(_) =>
          case Ok(ys) => assert x0 + (xs + ys) == (x0 + xs) + ys;
    }
  }

  /** The block is its leaves' bytes in depth-first order, and nothing
      else: no padding, no reordering. */
  lemma {:induction false} ConcatIsLeavesInOrder(e: Entry, emit: Emitter)
    decreases e, 1
    ensures Concat(e, emit) == EmitAll(Leaves(e), emit)
  {
    match e {
      case Leaf(leaf) =>
        assert [leaf][1..] == [];
        match emit(leaf) {
          case Err(_) =>
          case Ok(x) => assert x + [] == x;
        }
      case Branch(children) => FieldsAreLeavesInOrder(children, 0, emit);
    }
  }

  lemma {:induction false} FieldsAreLeavesInOrder(children: seq<(string, Entry)>, i: nat, emit: Emitter)
    requires i <= |children|
    decreases Branch(children), 0, |children| - i
    ensures ConcatFields(children, i, emit) == EmitAll(LeavesFrom(children, i), emit)
  {
    if i < |children| {
      ConcatIsLeavesInOrder(children[i].1, emit);
      FieldsAreLeavesInOrder(children, i + 1, emit);
      EmitAllAppend(Leaves(children[i].1), LeavesFrom(children, i + 1), emit);
    }
  }

  /** The leaf emitter of `build_bytestream`. */
  function BlockEmitter(block: Schema.Block, sheet: LegacyEmit.Lookups, settings: Settings, strict: bool, codec: Primitives.FloatCodec): Emitter
  {
    LeafEmitter(sheet, settings, block.header.padding, strict, codec)
  }

  // ---------------------------------------------------------------------
  // The buffer

  /** The state `build_bytestream` threads through the recursion. */
  class Buffer {
    var bytes: seq<byte>
    var offset: nat

    constructor ()
      ensures bytes == [] && offset == 0
    {
      bytes := [];
      offset := 0;
    }

    /** `build_bytestream_inner` */
    method Inner(e: Entry, emit: Emitter) returns (r: Result<(), NvmError>)
      modifies this
      decreases e, 1
      ensures var expected := Concat(e, emit);
        && (r.Ok? <==> expected.Ok?)
        && (r.Err? ==> r.error == expected.error)
        && (r.Ok? ==> bytes == old(bytes) + expected.value && offset == old(offset) + |expected.value|)
    {
      match e {
        case Leaf(leaf) =>
          var out := emit(leaf);
          if out.Err? {
            return Err(out.error);
          }
          offset := offset + |out.value|;
          bytes := bytes + out.value;
          r := Ok(());
        case Branch(children) =>
          r := Fields(children, emit);
      }
    }

    /** The field loop of `build_bytestream_inner`. */
    method Fields(children: seq<(string, Entry)>, emit: Emitter) returns (r: Result<(), NvmError>)
      modifies this
      decreases Branch(children), 0
      ensures var expected := ConcatFields(children, 0, emit);
        && (r.Ok? <==> expected.Ok?)
        && (r.Err? ==> r.error == expected.error)
        && (r.Ok? ==> bytes == old(bytes) + expected.value && offset == old(offset) + |expected.value|)
    {
      ghost var acc: seq<byte> := [];
      var i := 0;
      assert ValueBytes.Prepend([], ConcatFields(children, 0, emit)) == ConcatFields(children, 0, emit) by {
        if ConcatFields(children, 0, emit).Ok? {
          assert [] + ConcatFields(children, 0, emit).value == ConcatFields(children, 0, emit).value;
        }
      }
      while i < |children|
        invariant 0 <= i <= |children|
        invariant bytes == old(bytes) + acc
        invariant offset == old(offset) + |acc|
        invariant ValueBytes.Prepend(acc, ConcatFields(children, i, emit)) == ConcatFields(children, 0, emit)
      {
        var field := Inner(children[i].1, emit);
        if field.Err? {
          return Err(field.error);
        }
        ghost var first := Concat(children[i].1, emit).value;
        match ConcatFields(children, i + 1, emit) {
          case Ok(rest) => assert acc + (first + rest) == (acc + first) + rest;
          case Err(_) =>
        }
        acc := acc + first;
        i := i + 1;
      }
      assert acc + [] == acc;
      r := Ok(());
    }
  }

  /** `build_bytestream`: the block's tree from an empty buffer. */
  method BuildBytestream(block: Schema.Block, sheet: LegacyEmit.Lookups, settings: Settings, strict: bool, codec: Primitives.FloatCodec)
    returns (r: Result<seq<byte>, NvmError>)
    ensures r == Concat(block.data, BlockEmitter(block, sheet, settings, strict, codec))
  {
    var emit := BlockEmitter(block, sheet, settings, strict, codec);
    var buffer := new Buffer();
    var built := buffer.Inner(block.data, emit);
    if built.Err? {
      return Err(built.error);
    }
    assert [] + Concat(block.data, emit).value == Concat(block.data, emit).value;
    r := Ok(buffer.bytes);
  }
}
